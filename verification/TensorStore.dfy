/** The streamed file cut into slices. Slices tile the file; their 32-bit ids and count are exact below 2^32 slices. */
module TensorStore {
  import opened Common

  datatype Slice = Slice(id: nat, offset: nat, bytes: nat)

  /**
   * The slices cut so far: adjacent from zero, as large as the chunk size and the file allow, numbered by a 32-bit
   * counter.
   */
  ghost predicate TilesTo(slices: seq<Slice>, chunk: nat, size: nat, end: nat) {
    if |slices| == 0 then end == 0
    else
      var last := slices[|slices| - 1];
      && TilesTo(slices[..|slices| - 1], chunk, size, last.offset)
      && last.id == (|slices| - 1) % U32_LIMIT
      && 0 < last.bytes == Min(chunk, size - last.offset)
      && end == last.offset + last.bytes
  }

  ghost predicate Tiles(slices: seq<Slice>, chunk: nat, size: nat) {
    TilesTo(slices, chunk, size, size)
  }

  /** The bytes of a slice. */
  function Cut(file: Bytes, s: Slice): Bytes {
    if s.offset + s.bytes <= |file| then file[s.offset..s.offset + s.bytes] else []
  }

  function SliceBytes(file: Bytes, slices: seq<Slice>, k: nat): Bytes {
    if k < |slices| then Cut(file, slices[k]) else []
  }

  function Joined(file: Bytes, slices: seq<Slice>): Bytes {
    if |slices| == 0 then [] else Joined(file, slices[..|slices| - 1]) + Cut(file, slices[|slices| - 1])
  }

  lemma CutExtends(file: Bytes, s: Slice)
    requires s.offset + s.bytes <= |file|
    ensures file[..s.offset] + Cut(file, s) == file[..s.offset + s.bytes]
  {
  }

  /** The slices, joined, are the file up to where they end: every byte is in exactly one slice. */
  lemma {:induction false} SlicesJoin(file: Bytes, slices: seq<Slice>, chunk: nat, end: nat)
    requires TilesTo(slices, chunk, |file|, end)
    ensures end <= |file| && Joined(file, slices) == file[..end]
  {
    hide Cut;
    if |slices| > 0 {
      var last := slices[|slices| - 1];
      SlicesJoin(file, slices[..|slices| - 1], chunk, last.offset);
      CutExtends(file, last);
    }
  }

  /** Slice k is inside the file, not empty, and shorter than the chunk size only at the end of the file. */
  lemma {:induction false} SliceAt(slices: seq<Slice>, chunk: nat, size: nat, end: nat, k: nat)
    requires TilesTo(slices, chunk, size, end) && k < |slices|
    ensures slices[k].offset + slices[k].bytes <= end <= size
    ensures 0 < slices[k].bytes <= chunk && (slices[k].bytes < chunk ==> slices[k].offset + slices[k].bytes == size)
    ensures slices[k].id == k % U32_LIMIT
  {
    if k < |slices| - 1 {
      SliceAt(slices[..|slices| - 1], chunk, size, slices[|slices| - 1].offset, k);
    }
  }

  lemma NoSlices(chunk: nat, size: nat)
    ensures TilesTo([], chunk, size, 0)
  {
  }

  lemma OneMoreSlice(cut: seq<Slice>, chunk: nat, size: nat, off: nat, id: nat, n: nat)
    requires TilesTo(cut, chunk, size, off) && off < size && chunk > 0 && id == |cut| % U32_LIMIT
             && n == Min(chunk, size - off)
    ensures TilesTo(cut + [Slice(id, off, n)], chunk, size, off + n)
  {
    assert (cut + [Slice(id, off, n)])[..|cut|] == cut;
  }

  class TensorStore {
    const file: Bytes
    const chunk: nat
    const slices: seq<Slice>

    ghost predicate Valid() {
      Tiles(slices, chunk, |file|)
    }

    constructor (file: Bytes, chunk: nat)
      requires chunk > 0
      ensures Valid() && this.file == file && this.chunk == chunk
    {
      hide TilesTo;
      NoSlices(chunk, |file|);
      var cut: seq<Slice> := [];
      var off, id := 0, 0;
      while off < |file|
        invariant id == |cut| % U32_LIMIT && TilesTo(cut, chunk, |file|, off) && off <= |file|
        decreases |file| - off
      {
        var n := Min(chunk, |file| - off);
        OneMoreSlice(cut, chunk, |file|, off, id, n);
        cut := cut + [Slice(id, off, n)];
        id := (id + 1) % U32_LIMIT;
        off := off + n;
      }
      this.file, this.chunk, this.slices := file, chunk, cut;
    }

    /** The 32-bit count, exact as long as there are fewer than 2^32 slices. */
    function Count(): (n: nat)
      ensures n == |slices| <==> |slices| < U32_LIMIT
      ensures n <= |slices|
    {
      |slices| % U32_LIMIT
    }
  }

  /** A chunk size of zero is refused. */
  method Open(file: Bytes, chunk: nat) returns (r: Result<TensorStore>)
    ensures r.Ok? <==> chunk > 0
    ensures r.Ok? ==> r.value.Valid() && r.value.file == file && r.value.chunk == chunk
  {
    if chunk == 0 {
      return Err("chunk size must be > 0");
    }
    var store := new TensorStore(file, chunk);
    return Ok(store);
  }
}
