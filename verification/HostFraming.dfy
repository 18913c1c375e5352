/** src/host/protocol.ts: length-prefixed frames over a byte stream cut into arbitrary chunks. */
module HostFraming {
  import opened Streams

  const MAX_HEADER_BYTES: nat := 64 * 1024
  const MAX_PAYLOAD_BYTES: nat := 64 * 1024 * 1024
  const U32: nat := 0x1_0000_0000

  datatype Error =
    | HeaderTooBig | LengthOutOfRange | Truncated | InvalidJson | InvalidRequest | UnknownField
    | UnexpectedPreview | InvalidFields | UnexpectedPayload | TrailingBytes

  datatype Result<+T> = Ok(value: T) | Err(error: Error)

  // ---------- Frames ----------

  function BigEndian(n: nat): (r: seq<byte>)
    requires n < U32
    ensures |r| == 4
  {
    [n / 0x100_0000, n / 0x1_0000 % 0x100, n / 0x100 % 0x100, n % 0x100]
  }

  function FromBigEndian(b: seq<byte>): (n: nat)
    requires |b| == 4
    ensures n < U32
  {
    var (b0: int, b1: int, b2: int, b3: int) := (b[0], b[1], b[2], b[3]);
    b0 * 0x100_0000 + b1 * 0x1_0000 + b2 * 0x100 + b3
  }

  /** The number that digits in base 256 stand for, the most significant first. */
  function Numeral(b: seq<byte>): nat { if b == [] then 0 else 0x100 * Numeral(b[..|b| - 1]) + b[|b| - 1] }

  lemma MostSignificantFirst(b: seq<byte>)
    requires |b| == 4
    ensures FromBigEndian(b) == Numeral(b)
  {
    assert b[..3][..2] == b[..2] && b[..2][..1] == b[..1] && b[..1][..0] == [];
    assert Numeral(b[..2]) == 0x100 * Numeral(b[..1]) + b[1];
    assert Numeral(b[..3]) == 0x100 * Numeral(b[..2]) + b[2];
  }

  lemma BigEndianRoundTrip(n: nat)
    requires n < U32
    ensures FromBigEndian(BigEndian(n)) == n
  {
    var a, b, c := n / 0x100, n / 0x1_0000, n / 0x100_0000;
    assert n == a * 0x100 + n % 0x100 && a == b * 0x100 + a % 0x100 && b == c * 0x100 + b % 0x100;
  }

  function Frame(body: seq<byte>): seq<byte>
    requires |body| <= MAX_HEADER_BYTES
  {
    BigEndian(|body|) + body
  }

  method EncodeJsonFrame(body: seq<byte>) returns (r: Result<seq<byte>>)
    ensures r.Err? <==> |body| > MAX_HEADER_BYTES
    ensures r.Ok? ==> r.value == Frame(body) && FromBigEndian(r.value[..4]) == |r.value| - 4 && r.value[4..] == body
  {
    if |body| > MAX_HEADER_BYTES { return Err(HeaderTooBig); }
    BigEndianRoundTrip(|body|);
    var frame := new byte[|body| + 4];
    var prefix := BigEndian(|body|);
    forall i | 0 <= i < 4 { frame[i] := prefix[i]; }
    forall i | 0 <= i < |body| { frame[i + 4] := body[i]; }
    assert frame[..4] == prefix && frame[4..] == body;
    assert frame[..] == prefix + body;
    return Ok(frame[..]);
  }

  // ---------- The reader ----------

  /** What can be read before an empty chunk: the code takes one for the end of the stream. */
  function Readable(chunks: seq<seq<byte>>): seq<byte> {
    if chunks == [] || chunks[0] == [] then [] else chunks[0] + Readable(chunks[1..])
  }

  predicate NoEmpty(chunks: seq<seq<byte>>) { forall i :: 0 <= i < |chunks| ==> chunks[i] != [] }

  lemma {:induction false} ReadableIsAll(chunks: seq<seq<byte>>)
    requires NoEmpty(chunks)
    ensures Readable(chunks) == Flatten(chunks)
  {
    if chunks != [] { ReadableIsAll(chunks[1..]); }
  }

  class Reader {
    var pending: seq<byte>
    var chunks: seq<seq<byte>>

    /** The unconsumed bytes, and those of them that can be read. */
    ghost function Rest(): seq<byte>
      reads this
    {
      pending + Flatten(chunks)
    }

    ghost function Available(): seq<byte>
      reads this
    {
      pending + Readable(chunks)
    }

    constructor (chunks: seq<seq<byte>>)
      ensures this.chunks == chunks && pending == []
      ensures Rest() == Flatten(chunks) && Available() == Readable(chunks)
    {
      this.chunks, pending := chunks, [];
    }

    /** Exactly `length` bytes, from leftovers and as many chunks as it takes; what is left over stays. */
    method ReadExact(length: int) returns (r: Result<seq<byte>>)
      modifies this
      ensures !(0 <= length <= MAX_PAYLOAD_BYTES) ==>
        r == Err(LengthOutOfRange) && chunks == old(chunks) && pending == old(pending)
      ensures 0 <= length <= MAX_PAYLOAD_BYTES && length > |old(Available())| ==> r == Err(Truncated)
      ensures 0 <= length <= MAX_PAYLOAD_BYTES && length <= |old(Available())| ==>
        && r == Ok(old(Available())[..length])
        && Available() == old(Available())[length..]
        && |old(Rest())| >= length && Rest() == old(Rest())[length..] && r.value == old(Rest())[..length]
      ensures old(NoEmpty(chunks)) ==> NoEmpty(chunks)
    {
      if !(0 <= length <= MAX_PAYLOAD_BYTES) { return Err(LengthOutOfRange); }
      hide Readable, Flatten, NoEmpty;
      var output := new byte[length];
      var offset := 0;
      ghost var all, rest := Available(), Rest();
      while offset < length
        invariant 0 <= offset <= length && offset <= |all| && offset <= |rest|
        invariant output[..offset] == all[..offset] == rest[..offset]
        invariant Available() == all[offset..] && Rest() == rest[offset..]
        invariant old(NoEmpty(chunks)) ==> NoEmpty(chunks)
        decreases length - offset
      {
        var chunk := NextChunk();
        if chunk == [] { return Err(Truncated); }
        var take := if length - offset < |chunk| then length - offset else |chunk|;
        Copy(output, offset, chunk, take, all, Readable(chunks), rest, Flatten(chunks));
        offset := offset + take;
        pending := chunk[take..];
      }
      assert output[..] == output[..length];
      return Ok(output[..]);
    }

    /** The leftover, else the next chunk; empty when there is neither. */
    method NextChunk() returns (chunk: seq<byte>)
      modifies `chunks
      ensures chunk == [] <==> old(Available()) == []
      ensures chunk != [] ==> old(Available()) == chunk + Readable(chunks) && old(Rest()) == chunk + Flatten(chunks)
      ensures old(NoEmpty(chunks)) ==> NoEmpty(chunks)
    {
      if pending != [] { return pending; }
      if chunks == [] || chunks[0] == [] { return []; }
      chunk := chunks[0];
      chunks := chunks[1..];
    }

    static lemma Advance(all: seq<byte>, offset: nat, chunk: seq<byte>, take: nat, tail: seq<byte>)
      requires offset <= |all| && all[offset..] == chunk + tail && take <= |chunk|
      ensures offset + take <= |all|
      ensures all[offset + take..] == chunk[take..] + tail
      ensures all[..offset + take] == all[..offset] + chunk[..take]
    {
      assert all == all[..offset] + (chunk + tail);
      assert all[offset + take..] == all[offset..][take..];
    }

    /** One stretch of the chunk goes into the output; `all` and `rest` tell what it continues. */
    static method Copy(output: array<byte>, offset: nat, chunk: seq<byte>, take: nat,
                       ghost all: seq<byte>, ghost tail: seq<byte>, ghost rest: seq<byte>, ghost behind: seq<byte>)
      requires offset + take <= output.Length && take <= |chunk| && offset <= |all| && offset <= |rest|
      requires output[..offset] == all[..offset] == rest[..offset]
      requires all[offset..] == chunk + tail && rest[offset..] == chunk + behind
      modifies output
      ensures offset + take <= |all| && offset + take <= |rest|
      ensures output[..offset + take] == all[..offset + take] == rest[..offset + take]
      ensures all[offset + take..] == chunk[take..] + tail && rest[offset + take..] == chunk[take..] + behind
    {
      Fill(output, offset, chunk[..take]);
      Advance(all, offset, chunk, take, tail);
      Advance(rest, offset, chunk, take, behind);
      assert output[..offset + take] == output[..offset] + chunk[..take];
    }

    static method Fill(output: array<byte>, offset: nat, piece: seq<byte>)
      requires offset + |piece| <= output.Length
      modifies output
      ensures output[..offset] == old(output[..offset]) && output[offset..offset + |piece|] == piece
    {
      forall i | 0 <= i < |piece| { output[offset + i] := piece[i]; }
    }

    method ReadJsonFrame(parse: seq<byte> -> Option<Json>) returns (r: Result<Json>)
      modifies this
      ensures r == FrameAt(old(Available()), parse).0
      // A prefix beyond 64 KiB is refused, whatever follows it.
      ensures |old(Available())| >= 4 && Numeral(old(Available())[..4]) > 64 * 1024 ==> r == Err(HeaderTooBig)
      ensures r.Ok? ==> Available() == FrameAt(old(Available()), parse).1
      ensures r.Ok? ==> |Available()| <= |old(Available())| <= |old(Rest())|
      ensures r.Ok? ==> Rest() == old(Rest())[|old(Available())| - |Available()|..]
      ensures old(NoEmpty(chunks)) ==> NoEmpty(chunks)
    {
      ghost var all, rest := Available(), Rest();
      AvailableIsPrefix();
      var prefix := ReadExact(4);
      if prefix.Err? { return Err(prefix.error); }
      var size := FromBigEndian(prefix.value);
      MostSignificantFirst(prefix.value);
      if size > MAX_HEADER_BYTES { return Err(HeaderTooBig); }
      ghost var middle := Available();
      var bytes := ReadExact(size);
      if bytes.Err? { return Err(bytes.error); }
      assert all[4..][..size] == all[4..4 + size] && all[4..][size..] == all[4 + size..];
      assert rest[4..][size..] == rest[4 + size..];
      var v := parse(bytes.value);
      return if v.Some? then Ok(v.value) else Err(InvalidJson);
    }

    lemma AvailableIsPrefix()
      ensures Available() <= Rest()
    {
      ReadableIsPrefix(chunks);
    }

    /** A request: its header, the fields checked, then exactly its payload. */
    method ReadRequest(parse: seq<byte> -> Option<Json>) returns (r: Result<(HostRequest, seq<byte>)>)
      modifies this
      ensures r == RequestAt(old(Available()), parse).0
      ensures r.Ok? ==> Available() == RequestAt(old(Available()), parse).1
      ensures r.Ok? ==> |Available()| <= |old(Available())| <= |old(Rest())|
      ensures r.Ok? ==> Rest() == old(Rest())[|old(Available())| - |Available()|..]
      ensures old(NoEmpty(chunks)) ==> NoEmpty(chunks)
    {
      ghost var all, rest := Available(), Rest();
      AvailableIsPrefix();
      var v := ReadJsonFrame(parse);
      if v.Err? { return Err(v.error); }
      var request := CheckRequest(v.value);
      if request.Err? { return Err(request.error); }
      ghost var middle, middleRest := Available(), Rest();
      var n := request.value.payloadBytes;
      var payload := [];
      if n != 0 {
        var p := ReadExact(n);
        if p.Err? { return Err(p.error); }
        payload := p.value;
      }
      assert middle[..n] == payload && Available() == middle[n..] && Rest() == middleRest[n..];
      assert rest[|all| - |middle|..][n..] == rest[|all| - |middle| + n..];
      return Ok((request.value, payload));
    }

    /** Passes exactly when nothing is left over and the next read brings nothing. */
    method AssertEnd() returns (r: Result<()>)
      modifies this
      ensures r.Ok? <==> old(Available()) == []
      ensures r.Err? ==> r.error == TrailingBytes
      ensures old(NoEmpty(chunks)) ==> (r.Ok? <==> old(Rest()) == [])
      ensures r.Ok? ==> pending == [] && chunks == if old(chunks) == [] then [] else old(chunks)[1..]
    {
      if NoEmpty(chunks) { ReadableIsAll(chunks); }
      if pending != [] { return Err(TrailingBytes); }
      if chunks == [] { return Ok(()); }
      var next := chunks[0];
      chunks := chunks[1..];
      return if next == [] then Ok(()) else Err(TrailingBytes);
    }
  }

  lemma {:induction false} ReadableIsPrefix(chunks: seq<seq<byte>>)
    ensures Readable(chunks) <= Flatten(chunks)
  {
    if chunks != [] && chunks[0] != [] { ReadableIsPrefix(chunks[1..]); }
  }

  // ---------- Requests ----------

  /** A parsed header. An array is an object whose keys are its indices; `Other` is every value the checks refuse
      alike. */
  datatype Json = Object(members: map<string, Json>) | Array(length: nat) | Int(n: int) | Text(s: string) | Other

  datatype HostRequest = HostRequest(operation: string, payloadBytes: nat, preview: Option<Json>)

  const FIELDS: set<string> := {"version", "operation", "payloadBytes", "preview"}
  const OPERATIONS: set<string> := {"capabilities", "exportSnapshot", "importLogs", "previewConfig"}

  function Field(o: Json, key: string): Option<Json>
    requires o.Object?
  {
    if key in o.members then Some(o.members[key]) else None
  }

  function CheckRequest(v: Json): (r: Result<HostRequest>)
    ensures r.Ok? ==> r.value.payloadBytes <= MAX_PAYLOAD_BYTES && r.value.operation in OPERATIONS
    ensures r.Ok? ==> (r.value.payloadBytes > 0 ==> r.value.operation == "importLogs")
    ensures r.Ok? ==> (r.value.preview.Some? ==> r.value.operation == "previewConfig")
    ensures r.Ok? <==> exists q :: ValidRequest(q) && v.Object? && v == HeaderOf(q)
    // What each refusal means.
    ensures r == Err(InvalidRequest) <==> !v.Object? && !v.Array?
    ensures r == Err(UnknownField) <==>
      || (v.Array? && v.length > 0)
      || (v.Object? && v.members.Keys - {"version", "operation", "payloadBytes", "preview"} != {})
    ensures r == Err(UnexpectedPreview) <==>
      && v.Object? && v.members.Keys <= FIELDS && "preview" in v.members
      && ("operation" in v.members ==> v.members["operation"] != Text("previewConfig"))
    ensures r == Err(UnexpectedPayload) <==> exists q :: OverPaid(q) && v == HeaderOf(q)
    ensures r.Err? ==> r.error in {InvalidRequest, UnknownField, UnexpectedPreview, UnexpectedPayload, InvalidFields}
  {
    if v.Array? then Err(if v.length > 0 then UnknownField else InvalidFields)
    else if !v.Object? then Err(InvalidRequest)
    else if !(v.members.Keys <= FIELDS) then Err(UnknownField)
    else if Field(v, "operation") != Some(Text("previewConfig")) && Field(v, "preview").Some?
    then Err(UnexpectedPreview)
    else
      var op, size := Field(v, "operation"), Field(v, "payloadBytes");
      if Field(v, "version") != Some(Int(1)) || op.None? || !op.value.Text? || op.value.s !in OPERATIONS
         || size.None? || !size.value.Int? || !(0 <= size.value.n <= MAX_PAYLOAD_BYTES)
         then NotAHeader(v); Err(InvalidFields)
      else if op.value.s != "importLogs" && size.value.n != 0 then
        var q := HostRequest(op.value.s, size.value.n, Field(v, "preview"));
        assert v.members == HeaderOf(q).members;
        NotAHeader(v);
        Err(UnexpectedPayload)
      else
        var q := HostRequest(op.value.s, size.value.n, Field(v, "preview"));
        assert v.members == HeaderOf(q).members;
        Ok(q)
  }

  predicate ValidRequest(q: HostRequest) {
    && q.operation in OPERATIONS && q.payloadBytes <= MAX_PAYLOAD_BYTES
    && (q.payloadBytes > 0 ==> q.operation == "importLogs")
    && (q.preview.Some? ==> q.operation == "previewConfig")
  }

  /** A request that is valid but for a payload its operation does not take. */
  predicate OverPaid(q: HostRequest) {
    && q.operation in OPERATIONS - {"importLogs"} && 0 < q.payloadBytes <= MAX_PAYLOAD_BYTES
    && (q.preview.Some? ==> q.operation == "previewConfig")
  }

  /** The header a request travels under. */
  function HeaderOf(q: HostRequest): Json {
    var base := map["version" := Int(1), "operation" := Text(q.operation), "payloadBytes" := Int(q.payloadBytes)];
    Object(if q.preview.Some? then base["preview" := q.preview.value] else base)
  }

  lemma NotAHeader(v: Json)
    requires v.Object?
    ensures forall q :: v == HeaderOf(q) ==>
      && Field(v, "version") == Some(Int(1)) && Field(v, "operation") == Some(Text(q.operation))
      && Field(v, "payloadBytes") == Some(Int(q.payloadBytes))
  {
  }

  /** The frame at the start of a byte string, and what follows it. */
  function FrameAt(s: seq<byte>, parse: seq<byte> -> Option<Json>): (r: (Result<Json>, seq<byte>))
    ensures r.0.Ok? ==> |r.1| <= |s|
  {
    if |s| < 4 then (Err(Truncated), s)
    else
      var size := FromBigEndian(s[..4]);
      if size > MAX_HEADER_BYTES then (Err(HeaderTooBig), s)
      else if |s| < 4 + size then (Err(Truncated), s)
      else match parse(s[4..4 + size])
        case None => (Err(InvalidJson), s)
        case Some(v) => (Ok(v), s[4 + size..])
  }

  function RequestAt(s: seq<byte>, parse: seq<byte> -> Option<Json>): (Result<(HostRequest, seq<byte>)>, seq<byte>) {
    var (v, rest) := FrameAt(s, parse);
    if v.Err? then (Err(v.error), s)
    else match CheckRequest(v.value)
      case Err(e) => (Err(e), s)
      case Ok(q) => if q.payloadBytes > |rest| then (Err(Truncated), s)
        else (Ok((q, rest[..q.payloadBytes])), rest[q.payloadBytes..])
  }

  /** A valid request, its payload and anything after them, cut into any non-empty chunks: exactly the request and
      payload come back, and the end check passes exactly when nothing trails. */
  method RoundTrip(q: HostRequest, body: seq<byte>, payload: seq<byte>, trailing: seq<byte>, chunks: seq<seq<byte>>,
                   parse: seq<byte> -> Option<Json>)
    returns (r: Result<(HostRequest, seq<byte>)>, end: Result<()>)
    requires ValidRequest(q) && |payload| == q.payloadBytes
    requires |body| <= MAX_HEADER_BYTES && parse(body) == Some(HeaderOf(q))
    requires NoEmpty(chunks) && Flatten(chunks) == Frame(body) + payload + trailing
    ensures r == Ok((q, payload))
    ensures end.Ok? <==> trailing == []
  {
    hide CheckRequest, HeaderOf, FrameAt, Readable, Flatten, Frame, ValidRequest;
    var reader := new Reader(chunks);
    ReadableIsAll(chunks);
    FrameFound(body, payload + trailing, parse, HeaderOf(q));
    HeaderChecked(q);
    assert Frame(body) + payload + trailing == Frame(body) + (payload + trailing);
    assert (payload + trailing)[..|payload|] == payload && (payload + trailing)[|payload|..] == trailing;
    r := reader.ReadRequest(parse);
    end := reader.AssertEnd();
  }

  lemma HeaderChecked(q: HostRequest)
    requires ValidRequest(q)
    ensures CheckRequest(HeaderOf(q)) == Ok(q)
  {
  }

  lemma FrameFound(body: seq<byte>, rest: seq<byte>, parse: seq<byte> -> Option<Json>, v: Json)
    requires |body| <= MAX_HEADER_BYTES && parse(body) == Some(v)
    ensures FrameAt(Frame(body) + rest, parse) == (Ok(v), rest)
  {
    BigEndianRoundTrip(|body|);
    var s := Frame(body) + rest;
    assert s[..4] == BigEndian(|body|) && s[4..4 + |body|] == body && s[4 + |body|..] == rest;
  }

  /** An empty chunk passes for the end of the stream: the check is content with bytes still unread behind it. */
  method EmptyChunkHides(behind: seq<seq<byte>>) returns (r: Result<()>, left: seq<seq<byte>>)
    ensures r.Ok? && Flatten(left) == Flatten(behind)
  {
    var reader := new Reader([[]] + behind);
    assert reader.chunks[0] == [] && reader.chunks[1..] == behind;
    assert [] + Readable(reader.chunks) == [];
    r := reader.AssertEnd();
    left := reader.chunks;
  }
}
