/**
 * The GGUF reader object and the loading of a file, loop by loop, proved to compute the parser functions of Gguf.
 */
module GgufReader {
  import opened Common
  import opened Gguf
  import opened GgufAccepted

  /** A method's outcome against a parser function: the same value and cursor, or the same error. */
  predicate Agrees<T(==)>(r: Result<T>, spec: Result<(T, Cursor)>, at: Cursor) {
    match spec
    case Ok(p) => r == Ok(p.0) && at == p.1
    case Err(e) => r == Err(e)
  }

  /** The same for a charge, which has no value. */
  predicate Charged(r: Result<()>, spec: Result<Cursor>, at: Cursor) {
    match spec
    case Ok(c) => r == Ok(()) && at == c
    case Err(e) => r == Err(e)
  }

  // A loop that stops at element i stops the whole: the functions fail from there on with the same error.

  lemma {:induction false} StrsStop(file: Bytes, lim: Limits, c: Cursor, i: nat, n: nat)
    requires i <= n && ReadStrs(file, lim, c, i).Err?
    ensures ReadStrs(file, lim, c, n) == Err(ReadStrs(file, lim, c, i).error)
    decreases n
  {
    hide ReadStr;
    if i < n {
      StrsStop(file, lim, c, i, n - 1);
    }
  }

  lemma {:induction false} FloatsStop(file: Bytes, c: Cursor, single: bool, i: nat, n: nat)
    requires i <= n && ReadFloats(file, c, single, i).Err?
    ensures ReadFloats(file, c, single, n) == Err(ReadFloats(file, c, single, i).error)
    decreases n
  {
    if i < n {
      FloatsStop(file, c, single, i, n - 1);
    }
  }

  lemma {:induction false} IntsStop(file: Bytes, lim: Limits, c: Cursor, elem: nat, i: nat, n: nat)
    requires i <= n && ReadInts(file, lim, c, elem, i).Err?
    ensures ReadInts(file, lim, c, elem, n) == Err(ReadInts(file, lim, c, elem, i).error)
    decreases n
  {
    hide ReadScalar;
    if i < n {
      IntsStop(file, lim, c, elem, i, n - 1);
    }
  }

  lemma {:induction false} ItemsStop(file: Bytes, lim: Limits, c: Cursor, i: nat, n: nat)
    requires i <= n && ReadItems(file, lim, c, i).Err?
    ensures ReadItems(file, lim, c, n) == Err(ReadItems(file, lim, c, i).error)
    decreases n
  {
    hide ReadStr, ReadUint, ReadValue, HasKey;
    if i < n {
      ItemsStop(file, lim, c, i, n - 1);
    }
  }

  lemma {:induction false} DimsStop(file: Bytes, c: Cursor, i: nat, n: nat)
    requires i <= n && ReadDims(file, c, i).Err?
    ensures ReadDims(file, c, n) == Err(ReadDims(file, c, i).error)
    decreases n
  {
    if i < n {
      DimsStop(file, c, i, n - 1);
    }
  }

  lemma {:induction false} InfosStop(file: Bytes, lim: Limits, c: Cursor, i: nat, n: nat)
    requires i <= n && ReadInfos(file, lim, c, i).Err?
    ensures ReadInfos(file, lim, c, n) == Err(ReadInfos(file, lim, c, i).error)
    decreases n
  {
    hide ReadInfo;
    if i < n {
      InfosStop(file, lim, c, i, n - 1);
    }
  }

  lemma {:induction false} TensorsStop(size: nat, dataOffset: nat, infos: seq<Info>, i: nat)
    requires i <= |infos| && BuildTensors(size, dataOffset, infos[..i]).Err?
    ensures BuildTensors(size, dataOffset, infos) == Err(BuildTensors(size, dataOffset, infos[..i]).error)
    decreases |infos|
  {
    if i < |infos| {
      assert infos[..|infos| - 1][..i] == infos[..i];
      TensorsStop(size, dataOffset, infos[..|infos| - 1], i);
    } else {
      assert infos[..i] == infos;
    }
  }

  class Reader {
    const file: Bytes
    const lim: Limits
    var off: nat
    var heap: nat

    function At(): Cursor
      reads this
    {
      Cursor(off, heap)
    }

    constructor (file: Bytes, lim: Limits)
      ensures this.file == file && this.lim == lim && At() == Cursor(0, lim.maxHeap)
    {
      this.file, this.lim, off, heap := file, lim, 0, lim.maxHeap;
    }

    /** k bytes are left; the comparison never adds, so it cannot wrap. */
    method Require(k: nat) returns (ok: bool)
      ensures ok == Room(file, At(), k)
    {
      ok := !(k > |file| || off > |file| - k);
    }

    method ChargeBytes(bytes: nat) returns (r: Result<()>)
      modifies this
      ensures Charged(r, Charge(old(At()), bytes), At())
    {
      if bytes > heap {
        return Err("GGUF parse memory budget exceeded");
      }
      heap := heap - bytes;
      return Ok(());
    }

    method ChargeMany(n: nat, each: nat) returns (r: Result<()>)
      requires each > 0
      modifies this
      ensures Charged(r, ChargeEach(old(At()), n, each), At())
    {
      if n > U64_MAX / each {
        return Err("GGUF allocation overflow");
      }
      r := ChargeBytes(n * each);
    }

    /** read<T>: an unsigned little-endian value of the given width. */
    method Read(width: nat) returns (r: Result<nat>)
      modifies this
      ensures Agrees(r, ReadUint(file, old(At()), width), At())
    {
      var ok := Require(width);
      if !ok {
        return Err("truncated GGUF");
      }
      var v := LeValue(file[off..off + width]);
      off := off + width;
      return Ok(v);
    }

    method Str() returns (r: Result<Bytes>)
      modifies this
      ensures Agrees(r, ReadStr(file, lim, old(At())), At())
    {
      hide LeValue;
      var len :- Read(8);
      if len > lim.maxString {
        return Err("GGUF string exceeds parser limit");
      }
      var ok := Require(len);
      if !ok {
        return Err("truncated GGUF");
      }
      var paid := ChargeBytes(len);
      if paid.Err? {
        return Err(paid.error);
      }
      var s := file[off..off + len];
      off := off + len;
      return Ok(s);
    }

    method Scalar(t: nat) returns (r: Result<Data>)
      modifies this
      ensures Agrees(r, ReadScalar(file, lim, old(At()), t), At())
    {
      hide LeValue, ReadStr, ReadUint;
      if t == UINT8 {
        var v :- Read(1);
        return Ok(U(v));
      } else if t == INT8 {
        var v :- Read(1);
        return Ok(I(Signed(v, 0x100)));
      } else if t == UINT16 {
        var v :- Read(2);
        return Ok(U(v));
      } else if t == INT16 {
        var v :- Read(2);
        return Ok(I(Signed(v, 0x1_0000)));
      } else if t == UINT32 {
        var v :- Read(4);
        return Ok(U(v));
      } else if t == INT32 {
        var v :- Read(4);
        return Ok(I(Signed(v, U32_LIMIT)));
      } else if t == FLOAT32 {
        var v :- Read(4);
        return Ok(F(Single(v)));
      } else if t == BOOL {
        var v :- Read(1);
        return Ok(B(v != 0));
      } else if t == STRING {
        var paid := ChargeBytes(STRING_COST);
        if paid.Err? {
          return Err(paid.error);
        }
        var s :- Str();
        return Ok(S(s));
      } else if t == UINT64 {
        var v :- Read(8);
        return Ok(U(v));
      } else if t == INT64 {
        var v :- Read(8);
        return Ok(I(Signed(v, U64_LIMIT)));
      } else if t == FLOAT64 {
        var v :- Read(8);
        return Ok(F(Double(v)));
      } else if t == ARRAY {
        return Err("nested GGUF arrays are unsupported");
      } else {
        return Err("unknown GGUF metadata type");
      }
    }

    method StrLoop(n: nat) returns (r: Result<seq<Bytes>>)
      modifies this
      ensures Agrees(r, ReadStrs(file, lim, old(At()), n), At())
    {
      hide ReadStr;
      ghost var c := At();
      var a: seq<Bytes> := [];
      for i := 0 to n
        invariant ReadStrs(file, lim, c, i) == Ok((a, At()))
      {
        var s := Str();
        if s.Err? {
          StrsStop(file, lim, c, i + 1, n);
          return Err(s.error);
        }
        a := a + [s.value];
      }
      return Ok(a);
    }

    method FloatLoop(single: bool, n: nat) returns (r: Result<seq<Float>>)
      modifies this
      ensures Agrees(r, ReadFloats(file, old(At()), single, n), At())
    {
      hide ReadUint;
      ghost var c := At();
      var a: seq<Float> := [];
      for i := 0 to n
        invariant ReadFloats(file, c, single, i) == Ok((a, At()))
      {
        var v := Read(if single then 4 else 8);
        if v.Err? {
          FloatsStop(file, c, single, i + 1, n);
          return Err(v.error);
        }
        a := a + [if single then Single(v.value) else Double(v.value)];
      }
      return Ok(a);
    }

    method IntLoop(elem: nat, n: nat) returns (r: Result<seq<int>>)
      modifies this
      ensures Agrees(r, ReadInts(file, lim, old(At()), elem, n), At())
    {
      hide ReadScalar;
      ghost var c := At();
      var a: seq<int> := [];
      for i := 0 to n
        invariant ReadInts(file, lim, c, elem, i) == Ok((a, At()))
      {
        var v := Scalar(elem);
        if v.Err? {
          IntsStop(file, lim, c, elem, i + 1, n);
          return Err(v.error);
        }
        var wide := Widened(v.value);
        if wide.Err? {
          IntsStop(file, lim, c, elem, i + 1, n);
          return Err(wide.error);
        }
        a := a + [wide.value];
      }
      return Ok(a);
    }

    method ElementLoop(elem: nat, n: nat) returns (r: Result<Data>)
      modifies this
      ensures Agrees(r, ReadElements(file, lim, old(At()), elem, n), At())
    {
      hide ReadStrs, ReadFloats, ReadInts, Enough, ChargeEach;
      if elem == STRING {
        if !Enough(file, At(), n, 8) {
          return Err("truncated GGUF string array");
        }
        var paid := ChargeMany(n, STRING_COST);
        if paid.Err? {
          return Err(paid.error);
        }
        var a :- StrLoop(n);
        return Ok(Strings(a));
      }
      if elem == FLOAT32 || elem == FLOAT64 {
        if !Enough(file, At(), n, if elem == FLOAT32 then 4 else 8) {
          return Err("truncated GGUF float array");
        }
        var paid := ChargeMany(n, 8);
        if paid.Err? {
          return Err(paid.error);
        }
        var a :- FloatLoop(elem == FLOAT32, n);
        return Ok(Floats(a));
      }
      var width := IntWidth(elem);
      if width == 0 {
        return Err("unsupported GGUF array element type");
      }
      if !Enough(file, At(), n, width) {
        return Err("truncated GGUF integer array");
      }
      var paid := ChargeMany(n, 8);
      if paid.Err? {
        return Err(paid.error);
      }
      var a :- IntLoop(elem, n);
      return Ok(Ints(a));
    }

    method ValueOfType(t: nat) returns (r: Result<Value>)
      modifies this
      ensures Agrees(r, ReadValue(file, lim, old(At()), t), At())
    {
      hide ReadElements, ReadScalar, ReadUint;
      if t != ARRAY {
        var d :- Scalar(t);
        return Ok(Value(t, d));
      }
      var elem :- Read(4);
      if elem == ARRAY {
        return Err("nested GGUF arrays are unsupported");
      }
      var n :- Read(8);
      if n > lim.maxArray {
        return Err("GGUF array exceeds parser element limit");
      }
      var d :- ElementLoop(elem, n);
      return Ok(Value(t, d));
    }

    method Dims(n: nat) returns (r: Result<seq<nat>>)
      modifies this
      ensures Agrees(r, ReadDims(file, old(At()), n), At())
    {
      hide ReadUint;
      ghost var c := At();
      var a: seq<nat> := [];
      for i := 0 to n
        invariant ReadDims(file, c, i) == Ok((a, At()))
      {
        var d := Read(8);
        if d.Err? {
          DimsStop(file, c, i + 1, n);
          return Err(d.error);
        }
        if d.value == 0 {
          DimsStop(file, c, i + 1, n);
          return Err("zero tensor dimension");
        }
        a := a + [d.value];
      }
      return Ok(a);
    }

    method TensorInfo() returns (r: Result<Info>)
      modifies this
      ensures Agrees(r, ReadInfo(file, lim, old(At())), At())
    {
      hide ReadStr, ReadUint, ReadDims, ChargeEach;
      var name :- Str();
      var nd :- Read(4);
      if nd == 0 || nd > 4 {
        return Err("invalid tensor dimensions");
      }
      var paid := ChargeMany(nd, 8);
      if paid.Err? {
        return Err(paid.error);
      }
      var dims :- Dims(nd);
      var ty :- Read(4);
      var rel :- Read(8);
      return Ok(Info(name, dims, ty, rel));
    }
  }

  // ----- The loaded file

  /** The metadata as the hash map holds it. */
  function MapOf(items: seq<Item>): map<Bytes, Value> {
    if |items| == 0 then map[]
    else MapOf(items[..|items| - 1])[items[|items| - 1].key := items[|items| - 1].value]
  }

  /** The map finds what the list holds. */
  lemma {:induction false} MapLooksUp(items: seq<Item>, key: Bytes)
    ensures key in MapOf(items) <==> HasKey(items, key)
    ensures Lookup(items, key) == if key in MapOf(items) then Some(MapOf(items)[key]) else None
  {
    if |items| > 0 {
      var init, last := items[..|items| - 1], items[|items| - 1];
      MapLooksUp(init, key);
      if last.key == key {
        assert items[|items| - 1].key == key;
      } else if HasKey(init, key) {
        var i :| 0 <= i < |init| && init[i].key == key;
        assert items[i].key == key;
      }
    }
  }

  /** The index maps every tensor's name to its position, and nothing else. */
  ghost predicate Indexes(index: map<Bytes, nat>, ts: seq<Tensor>) {
    && (forall i :: 0 <= i < |ts| ==> ts[i].name in index && index[ts[i].name] == i)
    && (forall name :: name in index ==> index[name] < |ts| && ts[index[name]].name == name)
  }

  lemma IndexKnows(index: map<Bytes, nat>, ts: seq<Tensor>, name: Bytes)
    requires Indexes(index, ts)
    ensures name in index <==> HasTensor(ts, name)
  {
    if name in index {
      assert ts[index[name]].name == name;
    }
  }

  lemma IndexGrows(index: map<Bytes, nat>, ts: seq<Tensor>, t: Tensor)
    requires Indexes(index, ts) && t.name !in index
    ensures Indexes(index[t.name := |ts|], ts + [t])
  {
  }

  method ReadMetadata(r: Reader, n: nat) returns (res: Result<map<Bytes, Value>>, ghost items: seq<Item>)
    modifies r
    ensures match ReadItems(r.file, r.lim, old(r.At()), n)
            case Ok(p) => items == p.0 && r.At() == p.1 && res == Ok(MapOf(p.0))
            case Err(e) => res == Err(e)
  {
    hide ReadStr, ReadUint, ReadValue, HasKey;
    ghost var c := r.At();
    items := [];
    var metadata: map<Bytes, Value> := map[];
    for i := 0 to n
      invariant ReadItems(r.file, r.lim, c, i) == Ok((items, r.At())) && metadata == MapOf(items)
    {
      var key := r.Str();
      if key.Err? {
        ItemsStop(r.file, r.lim, c, i + 1, n);
        res := Err(key.error);
        return;
      }
      var ty := r.Read(4);
      if ty.Err? {
        ItemsStop(r.file, r.lim, c, i + 1, n);
        res := Err(ty.error);
        return;
      }
      var v := r.ValueOfType(ty.value);
      if v.Err? {
        ItemsStop(r.file, r.lim, c, i + 1, n);
        res := Err(v.error);
        return;
      }
      MapLooksUp(items, key.value);
      if key.value in metadata {
        ItemsStop(r.file, r.lim, c, i + 1, n);
        res := Err("duplicate GGUF metadata key");
        return;
      }
      metadata := metadata[key.value := v.value];
      ghost var before := items;
      items := items + [Item(key.value, v.value)];
      assert items[..|items| - 1] == before;
    }
    res := Ok(metadata);
  }

  method ReadTensorInfos(r: Reader, n: nat) returns (res: Result<seq<Info>>)
    modifies r
    ensures Agrees(res, ReadInfos(r.file, r.lim, old(r.At()), n), r.At())
  {
    hide ReadInfo;
    ghost var c := r.At();
    var a: seq<Info> := [];
    for i := 0 to n
      invariant ReadInfos(r.file, r.lim, c, i) == Ok((a, r.At()))
    {
      var info := r.TensorInfo();
      if info.Err? {
        InfosStop(r.file, r.lim, c, i + 1, n);
        return Err(info.error);
      }
      a := a + [info.value];
    }
    return Ok(a);
  }

  method ReadAlignment(metadata: map<Bytes, Value>, ghost items: seq<Item>) returns (r: Result<nat>)
    requires metadata == MapOf(items)
    ensures r == Alignment(items)
  {
    MapLooksUp(items, ALIGNMENT_KEY);
    var align := 32;
    if ALIGNMENT_KEY in metadata {
      align :- AsUnsigned(metadata[ALIGNMENT_KEY].data);
    }
    if align == 0 || BitAnd(align, align - 1) != 0 {
      return Err("invalid GGUF alignment");
    }
    return Ok(align);
  }

  lemma {:induction false} ElementsStop(dims: seq<nat>, i: nat)
    requires i <= |dims| && Elements(dims[..i]).Err?
    ensures Elements(dims) == Err(Elements(dims[..i]).error)
    decreases |dims|
  {
    if i < |dims| {
      assert dims[..|dims| - 1][..i] == dims[..i];
      ElementsStop(dims[..|dims| - 1], i);
    } else {
      assert dims[..i] == dims;
    }
  }

  method ElementCount(dims: seq<nat>) returns (r: Result<nat>)
    ensures r == Elements(dims)
  {
    var n := 1;
    for i := 0 to |dims|
      invariant Elements(dims[..i]) == Ok(n)
    {
      var d := dims[i];
      assert dims[..i + 1][..i] == dims[..i];
      if d == 0 {
        ElementsStop(dims, i + 1);
        return Err("zero tensor dimension");
      }
      if n > U64_MAX / d {
        ElementsStop(dims, i + 1);
        return Err("tensor element overflow");
      }
      n := n * d;
    }
    assert dims[..|dims|] == dims;
    return Ok(n);
  }

  method PlaceTensor(size: nat, dataOffset: nat, x: Info) returns (r: Result<Tensor>)
    ensures r == BuildTensor(size, dataOffset, x)
  {
    hide Elements, TensorBytes;
    var qk := RowBlock(x.ty);
    if qk > 1 && |x.dims| > 0 && x.dims[0] % qk != 0 {
      return Err("quantized tensor row is not block aligned");
    }
    if dataOffset > U64_MAX || x.rel > U64_MAX - dataOffset {
      return Err("tensor offset overflow");
    }
    var offset := dataOffset + x.rel;
    var n :- ElementCount(x.dims);
    var nbytes :- TensorBytes(x.ty, n);
    if offset > size || nbytes > size - offset {
      return Err("tensor out of file bounds");
    }
    return Ok(Tensor(x.name, x.dims, x.ty, offset, nbytes));
  }

  method PlaceTensors(size: nat, dataOffset: nat, infos: seq<Info>) returns (r: Result<(seq<Tensor>, map<Bytes, nat>)>)
    ensures match BuildTensors(size, dataOffset, infos)
            case Ok(ts) => r.Ok? && r.value.0 == ts && Indexes(r.value.1, ts)
            case Err(e) => r == Err(e)
  {
    hide BuildTensor, HasTensor;
    var ts: seq<Tensor> := [];
    var index: map<Bytes, nat> := map[];
    for i := 0 to |infos|
      invariant BuildTensors(size, dataOffset, infos[..i]) == Ok(ts) && Indexes(index, ts)
    {
      assert infos[..i + 1][..i] == infos[..i];
      var t := PlaceTensor(size, dataOffset, infos[i]);
      if t.Err? {
        TensorsStop(size, dataOffset, infos, i + 1);
        return Err(t.error);
      }
      IndexKnows(index, ts, t.value.name);
      if t.value.name in index {
        TensorsStop(size, dataOffset, infos, i + 1);
        return Err("duplicate GGUF tensor");
      }
      IndexGrows(index, ts, t.value);
      index := index[t.value.name := |ts|];
      ts := ts + [t.value];
    }
    assert infos[..|infos|] == infos;
    return Ok((ts, index));
  }

  lemma {:induction false} BytesStop(file: Bytes, c: Cursor, i: nat, n: nat)
    requires i <= n && ReadBytes(file, c, i).Err?
    ensures ReadBytes(file, c, n) == Err(ReadBytes(file, c, i).error)
    decreases n
  {
    hide ReadUint;
    if i < n {
      BytesStop(file, c, i, n - 1);
    }
  }

  method ReadMagic(r: Reader, n: nat) returns (res: Result<Bytes>)
    modifies r
    ensures Agrees(res, ReadBytes(r.file, old(r.At()), n), r.At())
  {
    hide ReadUint;
    ghost var c := r.At();
    var magic: Bytes := [];
    for i := 0 to n
      invariant ReadBytes(r.file, c, i) == Ok((magic, r.At()))
    {
      var v := r.Read(1);
      if v.Err? {
        BytesStop(r.file, c, i + 1, n);
        return Err(v.error);
      }
      magic := magic + [v.value % 256];
    }
    return Ok(magic);
  }

  /** The fields of a loaded file. */
  datatype Loaded = Loaded(version: nat, dataOffset: nat, metadata: map<Bytes, Value>, tensors: seq<Tensor>,
          index: map<Bytes, nat>)

  ghost predicate Represents(l: Loaded, f: File) {
    && l.version == f.version && l.dataOffset == f.dataOffset
    && l.metadata == MapOf(f.items) && l.tensors == f.tensors && Indexes(l.index, f.tensors)
  }

  method ReadHeader(r: Reader) returns (res: Result<(nat, nat, nat)>)
    requires r.At() == Cursor(0, r.lim.maxHeap)
    modifies r
    ensures match ReadCounts(r.file, r.lim)
            case Ok(p) => res == Ok((p.0, p.1, p.2)) && r.At() == p.3
            case Err(e) => res == Err(e)
  {
    hide ReadBytes, ReadUint;
    var magic :- ReadMagic(r, 4);
    if magic != MAGIC {
      return Err("not a GGUF file");
    }
    var version :- r.Read(4);
    if version < 2 || version > 3 {
      return Err("unsupported GGUF version");
    }
    var nt :- r.Read(8);
    var nkv :- r.Read(8);
    if nt > r.lim.maxTensors || nkv > r.lim.maxItems {
      return Err("GGUF item count exceeds parser limit");
    }
    return Ok((version, nt, nkv));
  }

  /** Loading a file accepts and rejects exactly as the parser function does, with its values. */
  method Load(file: Bytes, lim: Limits) returns (res: Result<Loaded>)
    ensures match Parse(file, lim)
            case Ok(f) => res.Ok? && Represents(res.value, f)
            case Err(e) => res == Err(e)
  {
    hide ReadCounts, ReadItems, ReadInfos, ChargeEach, Alignment, DataOffset, BuildTensors, Indexes, MapOf;
    var r := new Reader(file, lim);
    var counts :- ReadHeader(r);
    var paid := r.ChargeMany(counts.2, ITEM_COST);
    if paid.Err? {
      return Err(paid.error);
    }
    var metadata, items := ReadMetadata(r, counts.2);
    if metadata.Err? {
      return Err(metadata.error);
    }
    paid := r.ChargeMany(counts.1, INFO_COST);
    if paid.Err? {
      return Err(paid.error);
    }
    var infos :- ReadTensorInfos(r, counts.1);
    var align :- ReadAlignment(metadata.value, items);
    var dataOffset :- DataOffset(r.off, align);
    if |infos| > 0 && dataOffset > |file| {
      return Err("GGUF data section starts beyond file bounds");
    }
    paid := r.ChargeMany(|infos|, TENSOR_COST);
    if paid.Err? {
      return Err(paid.error);
    }
    var placed :- PlaceTensors(|file|, dataOffset, infos);
    return Ok(Loaded(counts.0, dataOffset, metadata.value, placed.0, placed.1));
  }

  /** tensor(name) on a loaded file. */
  method TensorByName(l: Loaded, ghost f: File, name: Bytes) returns (r: Result<Tensor>)
    requires Represents(l, f) && DistinctNames(f.tensors)
    ensures r.Ok? <==> HasTensor(f.tensors, name)
    ensures r.Ok? ==> r.value in f.tensors && r.value.name == name && Named(f.tensors, name) == Some(r.value)
  {
    IndexKnows(l.index, l.tensors, name);
    if name !in l.index {
      return Err("missing tensor");
    }
    NamedFinds(l.tensors, l.index[name]);
    return Ok(l.tensors[l.index[name]]);
  }

  /** get_u64: a missing, negative or non-integer value is absent. */
  method GetU64(l: Loaded, ghost f: File, key: Bytes) returns (r: Option<nat>)
    requires Represents(l, f)
    ensures Lookup(f.items, key).None? ==> r == None
    ensures Lookup(f.items, key).Some? ==>
              r == match Lookup(f.items, key).value.data
                   case U(u) => Some(u)
                   case I(i) => if i >= 0 then Some(i) else None
                   case _ => None
  {
    MapLooksUp(f.items, key);
    if key !in l.metadata {
      return None;
    }
    var v := AsUnsigned(l.metadata[key].data);
    return if v.Ok? then Some(v.value) else None;
  }
}
