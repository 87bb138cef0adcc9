/**
 * The trace-submission interface shared by the agent and Zipkin senders:
 * the serialized-buffer handoff between encoder and sender, and the
 * immutable Response record a send attempt produces.
 */
module Api {
  import opened Wrappers

  /** A Java `byte`: a signed 8-bit value. */
  newtype byte = x: int | -128 <= x < 128

  /**
   * The bounds rule of `OutputStream.write(b, off, len)` on an array of
   * `size` elements: violating it throws IndexOutOfBoundsException.
   */
  predicate InBounds(off: int, len: int, size: int)
  {
    0 <= off && 0 <= len && off + len <= size
  }

  /**
   * The `OutputStream` a buffer is written to (the HTTP request body).
   * `written` is everything it has received so far.
   */
  class ByteSink {
    var written: seq<byte>

    constructor ()
      ensures written == []
    {
      written := [];
    }

    method WriteByte(b: byte)
      modifies this
      ensures written == old(written) + [b]
    {
      written := written + [b];
    }

    /**
     * `write(b, off, len)`: `ok` is false exactly when the region is out of
     * the array's bounds (the exception case), in which case nothing is
     * written; otherwise the region is appended byte by byte.
     */
    method Write(b: array<byte>, off: int, len: int) returns (ok: bool)
      modifies this
      ensures ok == InBounds(off, len, b.Length)
      ensures written == if ok then old(written) + b[off..off + len] else old(written)
    {
      if !InBounds(off, len, b.Length) {
        return false;
      }
      var i := 0;
      while i < len
        invariant 0 <= i <= len
        invariant written == old(written) + b[off..off + i]
      {
        assert b[off..off + i + 1] == b[off..off + i] + [b[off + i]];
        WriteByte(b[off + i]);
        i := i + 1;
      }
      return true;
    }
  }

  /**
   * Capacity chosen when a streaming buffer must hold `minCapacity` bytes
   * and its array is too small: double the array, or take exactly what is
   * needed when doubling is not enough.
   */
  function NewCapacity(oldCapacity: nat, minCapacity: int): (c: nat)
    requires minCapacity > oldCapacity
    ensures c >= minCapacity && c >= 2 * oldCapacity
    ensures c == minCapacity || c == 2 * oldCapacity
  {
    if 2 * oldCapacity - minCapacity < 0 then minCapacity else 2 * oldCapacity
  }

  /**
   * The capacity of a streaming buffer's array after making room for
   * `minCapacity` bytes: unchanged when it already suffices, otherwise the
   * grown capacity.
   */
  function CapacityFor(capacity: nat, minCapacity: int): (c: nat)
    ensures c >= capacity && c >= minCapacity
    ensures minCapacity <= capacity ==> c == capacity
    ensures minCapacity > capacity ==> c == NewCapacity(capacity, minCapacity)
  {
    if minCapacity - capacity > 0 then NewCapacity(capacity, minCapacity) else capacity
  }

  /** The narrowing `(byte) x`: keeps the low 8 bits of `x`, read as a signed value. */
  function ToByte(x: int): (b: byte)
    ensures (x - b as int) % 256 == 0
    ensures -128 <= x < 128 ==> b as int == x
  {
    ((x + 128) % 256 - 128) as byte
  }

  /**
   * The growable variant: a byte-array output stream that the encoder writes
   * into and that the sender then reads through `WriteTo`, straight from the
   * internal array. `buf` may be longer than the `count` bytes written; the
   * cells past them are still zero, as allocated.
   */
  class StreamingSerializedBuffer {
    var buf: array<byte>
    var count: nat

    ghost predicate Valid()
      reads this, buf
    {
      count <= buf.Length &&
      forall i :: count <= i < buf.Length ==> buf[i] == 0
    }

    /** The bytes written so far. */
    ghost function Contents(): seq<byte>
      reads this, buf
      requires Valid()
    {
      buf[..count]
    }

    constructor (initialCapacity: nat)
      ensures Valid() && fresh(buf)
      ensures buf.Length == initialCapacity && Contents() == []
    {
      buf := new byte[initialCapacity](_ => 0);
      count := 0;
    }

    /** `length()`, that is `size()`: the number of bytes written so far. */
    function Length(): (n: int)
      reads this, buf
      requires Valid()
      ensures n == |Contents()|
    {
      count
    }

    /**
     * Makes room for `minCapacity` bytes: the same array when it is big
     * enough, otherwise a larger copy; the written bytes are kept.
     */
    method EnsureCapacity(minCapacity: int)
      requires Valid()
      modifies this
      ensures Valid() && count == old(count)
      ensures buf.Length == CapacityFor(old(buf.Length), minCapacity)
      ensures if minCapacity <= old(buf.Length) then buf == old(buf) else fresh(buf)
      ensures Contents() == old(Contents())
    {
      if minCapacity - buf.Length > 0 {
        Grow(minCapacity);
      }
    }

    /** Replaces the array by a zero-filled one of the grown capacity holding a copy of the old one. */
    method Grow(minCapacity: int)
      requires Valid() && minCapacity > buf.Length
      modifies this
      ensures Valid() && count == old(count) && fresh(buf)
      ensures buf.Length == NewCapacity(old(buf.Length), minCapacity)
      ensures buf[..old(buf.Length)] == old(buf[..])
    {
      var grown := new byte[NewCapacity(buf.Length, minCapacity)](_ => 0);
      var i := 0;
      while i < buf.Length
        invariant 0 <= i <= buf.Length
        invariant forall j :: 0 <= j < i ==> grown[j] == buf[j]
        invariant forall j :: i <= j < grown.Length ==> grown[j] == 0
        modifies grown
      {
        grown[i] := buf[i];
        i := i + 1;
      }
      assert grown[..buf.Length] == buf[..];
      buf := grown;
    }

    /** `write(int)`: appends the low 8 bits of `b`. */
    method Write(b: int)
      requires Valid()
      modifies this, buf
      ensures Valid()
      ensures Contents() == old(Contents()) + [ToByte(b)]
      ensures buf.Length == CapacityFor(old(buf.Length), old(count) + 1)
      ensures if old(count) + 1 <= old(buf.Length) then buf == old(buf) else fresh(buf)
    {
      EnsureCapacity(count + 1);
      buf[count] := ToByte(b);
      count := count + 1;
    }

    /**
     * `write(b, off, len)`: appends `b[off..off + len]`, or, when that region
     * is out of `b`'s bounds, writes nothing and reports the
     * IndexOutOfBoundsException as `ok == false`.
     */
    method WriteBytes(b: seq<byte>, off: int, len: int) returns (ok: bool)
      requires Valid()
      modifies this, buf
      ensures Valid()
      ensures ok == InBounds(off, len, |b|)
      ensures Contents() == if ok then old(Contents()) + b[off..off + len] else old(Contents())
      ensures buf.Length == if ok then CapacityFor(old(buf.Length), old(count) + len) else old(buf.Length)
      ensures if !ok || old(count) + len <= old(buf.Length) then buf == old(buf) else fresh(buf)
    {
      if !InBounds(off, len, |b|) {
        return false;
      }
      EnsureCapacity(count + len);
      ghost var before := Contents();
      var i := 0;
      while i < len
        invariant 0 <= i <= len
        invariant count + len <= buf.Length
        invariant buf[..count + i] == before + b[off..off + i]
        invariant forall j :: count + i <= j < buf.Length ==> buf[j] == 0
        modifies buf
      {
        buf[count + i] := b[off + i];
        assert b[off..off + i + 1] == b[off..off + i] + [b[off + i]];
        i := i + 1;
      }
      count := count + len;
      return true;
    }

    /**
     * `writeTo(out, startingIndex, length)`: hands the internal array itself
     * to `out`. The bounds are those of the array, not of `Length()`, so a
     * region past the written bytes but inside the capacity is emitted too
     * (zeros there). Any region inside `Length()` emits exactly that slice of
     * the contents.
     */
    method WriteTo(out: ByteSink, startingIndex: int, length: int) returns (ok: bool)
      requires Valid()
      modifies out
      ensures ok == InBounds(startingIndex, length, buf.Length)
      ensures out.written ==
        if ok then old(out.written) + buf[startingIndex..startingIndex + length] else old(out.written)
      ensures InBounds(startingIndex, length, Length()) ==>
        ok && out.written == old(out.written) + Contents()[startingIndex..startingIndex + length]
    {
      ok := out.Write(buf, startingIndex, length);
      if InBounds(startingIndex, length, count) {
        assert Contents() == buf[..count];
        assert Contents()[startingIndex..startingIndex + length] == buf[startingIndex..startingIndex + length];
      }
    }

    /** `toByteArray()`: a fresh copy of the written bytes. */
    method ToByteArray() returns (a: array<byte>)
      requires Valid()
      ensures fresh(a) && a[..] == Contents()
    {
      a := new byte[count];
      var i := 0;
      while i < count
        invariant 0 <= i <= count
        invariant a[..i] == buf[..i]
      {
        a[i] := buf[i];
        i := i + 1;
      }
    }
  }

  /** The frozen variant: wraps an array given by the caller, read-only. */
  class PredeterminedByteArraySerializedBuffer {
    const buf: array<byte>

    constructor (buf: array<byte>)
      ensures this.buf == buf
    {
      this.buf := buf;
    }

    /** `length()`: the length of the wrapped array. */
    function Length(): (n: int)
      ensures n == buf.Length
    {
      buf.Length
    }

    /** `writeTo(out, startingIndex, length)`: emits that region of the wrapped array. */
    method WriteTo(out: ByteSink, startingIndex: int, length: int) returns (ok: bool)
      modifies out
      ensures ok == InBounds(startingIndex, length, Length())
      ensures out.written ==
        if ok then old(out.written) + buf[startingIndex..startingIndex + length] else old(out.written)
    {
      ok := out.Write(buf, startingIndex, length);
    }

    /** `toByteArray()`: the wrapped array itself, not a copy. */
    method ToByteArray() returns (a: array<byte>)
      ensures a == buf
    {
      a := buf;
    }
  }

  /** The `SerializedBuffer` interface: one of its two implementations. */
  datatype SerializedBuffer =
    | Streaming(streaming: StreamingSerializedBuffer)
    | Predetermined(frozen: PredeterminedByteArraySerializedBuffer)
  {
    ghost predicate Valid()
      reads if Streaming? then {streaming, streaming.buf} else {}
    {
      Streaming? ==> streaming.Valid()
    }

    /** The array `writeTo` reads from. */
    ghost function Backing(): array<byte>
      reads if Streaming? then {streaming} else {}
    {
      if Streaming? then streaming.buf else frozen.buf
    }

    /** The logical byte sequence the buffer holds. */
    ghost function Bytes(): seq<byte>
      reads if Streaming? then {streaming, streaming.buf} else {frozen.buf}
      requires Valid()
    {
      if Streaming? then streaming.Contents() else frozen.buf[..]
    }

    function Length(): (n: int)
      reads if Streaming? then {streaming, streaming.buf} else {frozen.buf}
      requires Valid()
      ensures n == |Bytes()|
    {
      if Streaming? then streaming.Length() else frozen.Length()
    }

    method WriteTo(out: ByteSink, startingIndex: int, length: int) returns (ok: bool)
      requires Valid()
      modifies out
      ensures ok == InBounds(startingIndex, length, Backing().Length)
      ensures out.written ==
        if ok then old(out.written) + Backing()[startingIndex..startingIndex + length] else old(out.written)
      ensures InBounds(startingIndex, length, Length()) ==>
        ok && out.written == old(out.written) + Bytes()[startingIndex..startingIndex + length]
    {
      if Streaming? {
        ok := streaming.WriteTo(out, startingIndex, length);
      } else {
        ok := frozen.WriteTo(out, startingIndex, length);
      }
    }

    method ToByteArray() returns (a: array<byte>)
      requires Valid()
      ensures a[..] == Bytes()
      ensures Streaming? ==> fresh(a)
      ensures Predetermined? ==> a == frozen.buf
    {
      if Streaming? {
        a := streaming.ToByteArray();
      } else {
        a := frozen.ToByteArray();
      }
    }
  }

  /**
   * How the sender consumes a buffer, `writeTo(out, 0, length())`, next to
   * the `toByteArray()` fallback: both yield the same bytes.
   */
  method WriteWhole(b: SerializedBuffer, out: ByteSink) returns (a: array<byte>)
    requires b.Valid()
    modifies out
    ensures out.written == old(out.written) + a[..]
    ensures a[..] == b.Bytes()
  {
    var ok := b.WriteTo(out, 0, b.Length());
    assert b.Bytes()[0..b.Length()] == b.Bytes();
    a := b.ToByteArray();
  }

  /**
   * The outcome of one send attempt. `J` stands for the parsed JSON node
   * type and `E` for Throwable; every reference-typed field may be absent.
   */
  datatype Response<J, E> = Response(
    success: bool,
    status: Option<int>,
    json: Option<J>,
    content: Option<string>,
    exception: Option<E>)

  /** The private constructor taking a text body: it leaves `json` absent. */
  function WithContent<J, E>(success: bool, status: Option<int>, content: Option<string>, exception: Option<E>)
    : (r: Response<J, E>)
    ensures r.json == None
    ensures r.success == success && r.status == status && r.content == content && r.exception == exception
  {
    Response(success, status, None, content, exception)
  }

  /** The private constructor taking a JSON body: it leaves `content` absent. */
  function WithJson<J, E>(success: bool, status: Option<int>, json: Option<J>, exception: Option<E>)
    : (r: Response<J, E>)
    ensures r.content == None
    ensures r.success == success && r.status == status && r.json == json && r.exception == exception
  {
    Response(success, status, json, None, exception)
  }

  /** `success(status)`: a successful request with a trivial body. */
  function Success<J, E>(status: int): (r: Response<J, E>)
    ensures r.success && r.status == Some(status)
    ensures r.json == None && r.content == None && r.exception == None
  {
    WithContent(true, Some(status), None, None)
  }

  /** `success(status, json)`: a successful request with a parsed JSON body. */
  function SuccessWithJson<J, E>(status: int, json: Option<J>): (r: Response<J, E>)
    ensures r.success && r.status == Some(status)
    ensures r.json == json && r.content == None && r.exception == None
  {
    WithJson(true, Some(status), json, None)
  }

  /** `success(status, string)`: a successful request with a text body. */
  function SuccessWithContent<J, E>(status: int, content: Option<string>): (r: Response<J, E>)
    ensures r.success && r.status == Some(status)
    ensures r.json == None && r.content == content && r.exception == None
  {
    WithContent(true, Some(status), content, None)
  }

  /** `success(status, exception)`: the request succeeded but its body was malformed. */
  function SuccessWithException<J, E>(status: int, exception: Option<E>): (r: Response<J, E>)
    ensures r.success && r.status == Some(status)
    ensures r.json == None && r.content == None && r.exception == exception
  {
    WithContent(true, Some(status), None, exception)
  }

  /** `failed(status)`: the collector answered with an error status. */
  function Failed<J, E>(status: int): (r: Response<J, E>)
    ensures !r.success && r.status == Some(status)
    ensures r.json == None && r.content == None && r.exception == None
  {
    WithContent(false, Some(status), None, None)
  }

  /** `failed(exception)`: the communication itself failed, so there is no status. */
  function FailedWithException<J, E>(exception: Option<E>): (r: Response<J, E>)
    ensures !r.success && r.status == None
    ensures r.json == None && r.content == None && r.exception == exception
  {
    WithContent(false, None, None, exception)
  }

  /** What a successful exchange carried back. */
  datatype Body<J, E> = NoBody | JsonBody(json: J) | TextBody(text: string) | MalformedBody(error: E)

  /** The three-way classification of a send attempt, one case per factory family. */
  datatype Outcome<J, E> =
    | HttpOk(status: int, body: Body<J, E>)
    | HttpFailed(status: int)
    | TransportFailed(error: Option<E>)

  /** The response the matching factory method builds for an outcome. */
  function Build<J, E>(o: Outcome<J, E>): Response<J, E>
  {
    match o
    case HttpOk(status, NoBody) => Success(status)
    case HttpOk(status, JsonBody(j)) => SuccessWithJson(status, Some(j))
    case HttpOk(status, TextBody(t)) => SuccessWithContent(status, Some(t))
    case HttpOk(status, MalformedBody(e)) => SuccessWithException(status, Some(e))
    case HttpFailed(status) => Failed(status)
    case TransportFailed(e) => FailedWithException(e)
  }

  /**
   * Reads a response back as an outcome; None for a combination of fields
   * that no factory method produces.
   */
  function Classify<J, E>(r: Response<J, E>): Option<Outcome<J, E>>
  {
    if r.success then
      if r.status.None? then None
      else if r.json.Some? then
        if r.content.None? && r.exception.None? then Some(HttpOk(r.status.value, JsonBody(r.json.value))) else None
      else if r.content.Some? then
        if r.exception.None? then Some(HttpOk(r.status.value, TextBody(r.content.value))) else None
      else if r.exception.Some? then Some(HttpOk(r.status.value, MalformedBody(r.exception.value)))
      else Some(HttpOk(r.status.value, NoBody))
    else if r.json.Some? || r.content.Some? then None
    else if r.status.Some? then
      if r.exception.None? then Some(HttpFailed(r.status.value)) else None
    else Some(TransportFailed(r.exception))
  }

  /** Every factory result is read back as the outcome it was built from. */
  lemma ClassifyBuild<J, E>(o: Outcome<J, E>)
    ensures Classify(Build(o)) == Some(o)
  {
  }

  /** A response that classifies is exactly what the factory for its outcome builds. */
  lemma BuildClassify<J, E>(r: Response<J, E>)
    requires Classify(r).Some?
    ensures Build(Classify(r).value) == r
  {
  }

  /**
   * The invariants of every response the factories can build: a success
   * carries a status; at most one of `json` and `content` is present; a
   * body excludes an exception; a failure carries no body, and a failure
   * with a status carries no exception.
   */
  lemma FactoryInvariants<J, E>(o: Outcome<J, E>)
    ensures var r := Build(o);
      (r.success ==> r.status.Some?) &&
      !(r.json.Some? && r.content.Some?) &&
      (r.exception.Some? ==> r.json.None? && r.content.None?) &&
      (!r.success ==> r.json.None? && r.content.None?) &&
      (!r.success && r.status.Some? ==> r.exception.None?) &&
      (r.status.None? <==> o.TransportFailed?)
  {
    match o
    case HttpOk(_, body) =>
    case HttpFailed(_) =>
    case TransportFailed(_) =>
  }

  /**
   * Passing null as the body of a success factory yields the same response
   * as `success(status)`; passing null to `failed(exception)` yields a
   * failure with neither status nor exception.
   */
  lemma AbsentArguments<J, E>(status: int)
    ensures SuccessWithJson<J, E>(status, None) == Success(status)
    ensures SuccessWithContent<J, E>(status, None) == Success(status)
    ensures SuccessWithException<J, E>(status, None) == Success(status)
    ensures var r := FailedWithException<J, E>(None); r.status.None? && r.exception.None?
  {
  }
}
