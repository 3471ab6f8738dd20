/** Bounded transfers: the copy and read loops of the mirror, the counting reader
    around a decompressor, and the retry loop around every request. */
module BoundedIo {
  import opened Base

  const READ_CHUNK: nat := 64 * 1024
  const OPEN_SIZE_CAP: nat := 0x4000_0000

  /** A finite byte stream. One `Read` may return any non-empty amount up to what
      was asked for; it returns nothing only at the end or when asked for nothing. */
  class Stream {
    const data: Bytes
    var pos: nat

    ghost predicate Valid()
      reads this
    {
      pos <= |data|
    }

    ghost function Rest(): Bytes
      requires Valid()
      reads this
    {
      data[pos..]
    }

    constructor (bytes: Bytes)
      ensures Valid() && data == bytes && pos == 0
    {
      data := bytes;
      pos := 0;
    }

    method Read(want: nat) returns (chunk: Bytes)
      requires Valid()
      modifies this
      ensures Valid() && old(pos) <= pos <= old(pos) + want && chunk == data[old(pos)..pos]
      ensures chunk == [] <==> want == 0 || old(pos) == |data|
    {
      var most := Min(want, |data| - pos);
      var size := 0;
      if most > 0 {
        size :| 1 <= size <= most;
      }
      chunk := data[pos..pos + size];
      pos := pos + size;
    }
  }

  lemma SliceOfRest(data: Bytes, p: nat, a: nat, b: nat)
    requires p + a <= p + b <= |data|
    ensures data[p + a..p + b] == data[p..][a..b]
  {
  }

  class Sink {
    var written: Bytes

    constructor ()
      ensures written == []
    {
      written := [];
    }

    method Write(chunk: Bytes)
      modifies this
      ensures written == old(written) + chunk
    {
      written := written + chunk;
    }
  }

  datatype Refusal = SizeExceeded

  /** Delivers the whole rest of the stream when it fits in `limit`, and otherwise
      refuses after passing on at most `limit` bytes; never pulls more than one
      byte past the limit. */
  method CopyBounded(response: Stream, fh: Sink, limit: nat) returns (ok: bool)
    requires response.Valid()
    modifies response, fh
    ensures response.Valid() && response.pos <= old(response.pos) + limit + 1
    ensures ok <==> |old(response.Rest())| <= limit
    ensures ok ==> fh.written == old(fh.written) + old(response.Rest())
    ensures !ok ==> exists n | 0 <= n <= limit :: fh.written == old(fh.written) + old(response.Rest())[..n]
  {
    var total := 0;
    ghost var rest := response.Rest();
    while true
      invariant response.Valid() && response.pos == old(response.pos) + total && total <= limit
      invariant fh.written == old(fh.written) + rest[..total]
      decreases limit - total
    {
      var chunk := response.Read(Min(READ_CHUNK, limit - total + 1));
      if chunk == [] {
        return true;
      }
      ghost var before := total;
      total := total + |chunk|;
      SliceOfRest(response.data, old(response.pos), before, total);
      if total > limit {
        return false;
      }
      assert rest[..before] + chunk == rest[..total];
      fh.Write(chunk);
    }
  }

  /** The in-memory form of the same loop, for control files with no declared size. */
  method ReadBounded(response: Stream, limit: nat) returns (r: Result<Bytes, Refusal>)
    requires response.Valid()
    modifies response
    ensures response.Valid() && response.pos <= old(response.pos) + limit + 1
    ensures r == if |old(response.Rest())| <= limit then Ok(old(response.Rest())) else Err(SizeExceeded)
  {
    var body: Bytes := [];
    var total := 0;
    ghost var rest := response.Rest();
    while true
      invariant response.Valid() && response.pos == old(response.pos) + total && total <= limit
      invariant body == rest[..total]
      decreases limit - total
    {
      var chunk := response.Read(Min(READ_CHUNK, limit - total + 1));
      if chunk == [] {
        assert rest[..total] == rest;
        return Ok(body);
      }
      SliceOfRest(response.data, old(response.pos), total, total + |chunk|);
      total := total + |chunk|;
      if total > limit {
        return Err(SizeExceeded);
      }
      body := body + chunk;
    }
  }

  /** Reads a decompressed stream, refusing the first byte past `limit`. */
  class BoundedReader {
    const inner: Stream
    const limit: nat
    var total: nat

    ghost predicate Valid()
      reads this, inner
    {
      inner.Valid() && inner.pos == total && total <= limit + 1
    }

    constructor (stream: Stream, bound: nat)
      requires stream.Valid() && stream.pos == 0
      ensures Valid() && inner == stream && limit == bound && total == 0
    {
      inner := stream;
      limit := bound;
      total := 0;
    }

    /** `size` None or negative asks for a default chunk, as the parser may. */
    method Read(size: Option<int>) returns (r: Result<Bytes, Refusal>)
      requires Valid()
      modifies this, inner
      ensures Valid() && old(total) <= total
      ensures r.Ok? ==> total <= limit && r.value == inner.data[old(total)..total]
      ensures r.Err? <==> total == limit + 1
      ensures r.Ok? && r.value == [] && size != Some(0) ==> total == |inner.data|
      ensures r.Ok? && r.value != [] ==> total > old(total)
    {
      var want := if size == None || size.value < 0 then READ_CHUNK else size.value;
      var chunk := inner.Read(Min(want, limit - total + 1));
      total := total + |chunk|;
      if total > limit {
        return Err(SizeExceeded);
      }
      return Ok(chunk);
    }
  }

  /** The effective bound of a listing: its declared open size only ever narrows the cap. */
  function PrimaryLimit(openSize: Option<int>): (r: Option<nat>)
    ensures r.None? <==> openSize.Some? && openSize.value < 0
    ensures r.Some? ==> r.value <= OPEN_SIZE_CAP && (openSize.Some? ==> r.value <= openSize.value)
    ensures r.Some? ==> r.value == OPEN_SIZE_CAP || openSize == Some(r.value)
  {
    var limit := if openSize == None then OPEN_SIZE_CAP else Min(openSize.value, OPEN_SIZE_CAP);
    if limit < 0 then None else Some(limit)
  }

  /** A parser pulling a listing through the counting reader until it ends, asking
      for whatever (non-zero) sizes it likes: it sees exactly the listing, or a
      refusal, and at most one byte more than the bound is ever decompressed. */
  method ReadListing(stream: Stream, openSize: Option<int>, sizes: nat -> Option<int>)
    returns (r: Result<Bytes, Refusal>)
    requires stream.Valid() && stream.pos == 0
    requires forall k: nat :: sizes(k) != Some(0)
    modifies stream
    ensures r.Ok? <==> PrimaryLimit(openSize).Some? && |stream.data| <= PrimaryLimit(openSize).value
    ensures r.Ok? ==> r.value == stream.data
    ensures PrimaryLimit(openSize).Some? ==> stream.pos <= PrimaryLimit(openSize).value + 1
    ensures PrimaryLimit(openSize).None? ==> stream.pos == 0
  {
    var bound := PrimaryLimit(openSize);
    if bound.None? {
      return Err(SizeExceeded);
    }
    var reader := new BoundedReader(stream, bound.value);
    var listing: Bytes := [];
    var k: nat := 0;
    while true
      invariant reader.Valid() && reader.inner == stream && reader.limit == bound.value && fresh(reader)
      invariant reader.total <= bound.value && listing == stream.data[..reader.total]
      decreases bound.value - reader.total
    {
      var before := reader.total;
      var chunk := reader.Read(sizes(k));
      k := k + 1;
      if chunk.Err? {
        return Err(SizeExceeded);
      }
      if chunk.value == [] {
        assert stream.data[..|stream.data|] == stream.data;
        return Ok(listing);
      }
      assert stream.data[..before] + stream.data[before..reader.total] == stream.data[..reader.total];
      listing := listing + chunk.value;
    }
  }

  // ------------------------------------------------------------------- retrying

  datatype Attempt<T> = Returned(value: T) | Transient | Permanent

  const BACKOFF: seq<real> := [0.5, 1.0]

  /** Calls until an attempt is not transient, at most three times, sleeping the
      backoff between calls; the last attempt's outcome is the outcome. */
  method Retrying<T>(func: nat -> Attempt<T>) returns (last: Attempt<T>, calls: nat, sleeps: seq<real>)
    ensures 1 <= calls <= 3 && last == func(calls - 1)
    ensures forall k: nat | k < calls - 1 :: func(k).Transient?
    ensures last.Transient? ==> calls == 3
    ensures sleeps == BACKOFF[..calls - 1]
  {
    var attempts := |BACKOFF| + 1;
    calls, sleeps := 0, [];
    while true
      invariant calls < attempts && sleeps == BACKOFF[..calls]
      invariant forall k: nat | k < calls :: func(k).Transient?
      decreases attempts - calls
    {
      last := func(calls);
      calls := calls + 1;
      if !last.Transient? || calls == attempts {
        return;
      }
      sleeps := sleeps + [BACKOFF[calls - 1]];
    }
  }
}
