/**
 * The GGUF container: the parser as functions of the file's bytes, a cursor and a heap budget.
 * Floating-point values are kept as the bit patterns that were read.
 */
module Gguf {
  import opened Common

  datatype Limits = Limits(maxTensors: nat, maxItems: nat, maxArray: nat, maxString: nat, maxHeap: nat)

  /** Where the reader is and how much heap budget is left. */
  datatype Cursor = Cursor(off: nat, heap: nat)

  datatype Float = Single(bits: nat) | Double(bits: nat)

  datatype Data = U(u: nat) | I(i: int) | F(f: Float) | B(b: bool) | S(s: Bytes)
                | Ints(ints: seq<int>) | Floats(floats: seq<Float>) | Strings(strings: seq<Bytes>)

  datatype Value = Value(ty: nat, data: Data)

  datatype Item = Item(key: Bytes, value: Value)

  datatype Info = Info(name: Bytes, dims: seq<nat>, ty: nat, rel: nat)

  datatype Tensor = Tensor(name: Bytes, dims: seq<nat>, ty: nat, offset: nat, nbytes: nat)

  datatype File = File(version: nat, items: seq<Item>, align: nat, headerEnd: nat, dataOffset: nat,
          tensors: seq<Tensor>)

  // Metadata value types
  const UINT8: nat := 0
  const INT8: nat := 1
  const UINT16: nat := 2
  const INT16: nat := 3
  const UINT32: nat := 4
  const INT32: nat := 5
  const FLOAT32: nat := 6
  const BOOL: nat := 7
  const STRING: nat := 8
  const ARRAY: nat := 9
  const UINT64: nat := 10
  const INT64: nat := 11
  const FLOAT64: nat := 12

  // Budget constants: a metadata entry, a string object, and per tensor the descriptor and index entries
  const ITEM_COST: nat := 128
  const STRING_COST: nat := 32
  const INFO_COST: nat := 72 + 64
  const TENSOR_COST: nat := 80 + 96

  // ----- The reader

  /** Is there room for k bytes? No sum is formed, so nothing can wrap. */
  predicate Room(file: Bytes, c: Cursor, k: nat) {
    k <= |file| && c.off <= |file| - k
  }

  /** Little-endian. */
  function LeValue(b: Bytes): nat {
    if |b| == 0 then 0 else b[0] + 256 * LeValue(b[1..])
  }

  function ReadUint(file: Bytes, c: Cursor, width: nat): Result<(nat, Cursor)> {
    if !Room(file, c, width) then Err("truncated GGUF")
    else Ok((LeValue(file[c.off..c.off + width]), c.(off := c.off + width)))
  }

  function Charge(c: Cursor, bytes: nat): Result<Cursor> {
    if bytes > c.heap then Err("GGUF parse memory budget exceeded") else Ok(c.(heap := c.heap - bytes))
  }

  /** A checked product with a constant, charged to the budget. */
  function ChargeEach(c: Cursor, n: nat, each: nat): Result<Cursor>
    requires each > 0
  {
    if n > U64_MAX / each then Err("GGUF allocation overflow") else Charge(c, n * each)
  }

  function ReadStr(file: Bytes, lim: Limits, c: Cursor): Result<(Bytes, Cursor)> {
    var len :- ReadUint(file, c, 8);
    if len.0 > lim.maxString then Err("GGUF string exceeds parser limit")
    else if !Room(file, len.1, len.0) then Err("truncated GGUF")
    else
      var paid :- Charge(len.1, len.0);
      Ok((file[paid.off..paid.off + len.0], paid.(off := paid.off + len.0)))
  }

  /** Two's complement of the given modulus. */
  function Signed(v: nat, modulus: nat): int {
    if v >= modulus / 2 then v - modulus else v
  }

  function ReadScalar(file: Bytes, lim: Limits, c: Cursor, t: nat): Result<(Data, Cursor)> {
    if t == UINT8 then var v :- ReadUint(file, c, 1); Ok((U(v.0), v.1))
    else if t == INT8 then var v :- ReadUint(file, c, 1); Ok((I(Signed(v.0, 0x100)), v.1))
    else if t == UINT16 then var v :- ReadUint(file, c, 2); Ok((U(v.0), v.1))
    else if t == INT16 then var v :- ReadUint(file, c, 2); Ok((I(Signed(v.0, 0x1_0000)), v.1))
    else if t == UINT32 then var v :- ReadUint(file, c, 4); Ok((U(v.0), v.1))
    else if t == INT32 then var v :- ReadUint(file, c, 4); Ok((I(Signed(v.0, U32_LIMIT)), v.1))
    else if t == FLOAT32 then var v :- ReadUint(file, c, 4); Ok((F(Single(v.0)), v.1))
    else if t == BOOL then var v :- ReadUint(file, c, 1); Ok((B(v.0 != 0), v.1))
    else if t == STRING then
      var paid :- Charge(c, STRING_COST);
      var s :- ReadStr(file, lim, paid);
      Ok((S(s.0), s.1))
    else if t == UINT64 then var v :- ReadUint(file, c, 8); Ok((U(v.0), v.1))
    else if t == INT64 then var v :- ReadUint(file, c, 8); Ok((I(Signed(v.0, U64_LIMIT)), v.1))
    else if t == FLOAT64 then var v :- ReadUint(file, c, 8); Ok((F(Double(v.0)), v.1))
    else if t == ARRAY then Err("nested GGUF arrays are unsupported")
    else Err("unknown GGUF metadata type")
  }

  // ----- Arrays

  function ReadStrs(file: Bytes, lim: Limits, c: Cursor, n: nat): Result<(seq<Bytes>, Cursor)> {
    if n == 0 then Ok(([], c))
    else
      var init :- ReadStrs(file, lim, c, n - 1);
      var s :- ReadStr(file, lim, init.1);
      Ok((init.0 + [s.0], s.1))
  }

  function ReadFloats(file: Bytes, c: Cursor, single: bool, n: nat): Result<(seq<Float>, Cursor)> {
    if n == 0 then Ok(([], c))
    else
      var init :- ReadFloats(file, c, single, n - 1);
      var v :- ReadUint(file, init.1, if single then 4 else 8);
      Ok((init.0 + [if single then Single(v.0) else Double(v.0)], v.1))
  }

  /** An integer or boolean widened to 64 signed bits. */
  function Widened(d: Data): Result<int> {
    match d
    case U(u) => if u > 0x7FFF_FFFF_FFFF_FFFF then Err("GGUF integer array value exceeds int64") else Ok(u)
    case I(i) => Ok(i)
    case B(b) => Ok(if b then 1 else 0)
    case _ => Err("unsupported GGUF array element type")
  }

  function ReadInts(file: Bytes, lim: Limits, c: Cursor, elem: nat, n: nat): Result<(seq<int>, Cursor)> {
    if n == 0 then Ok(([], c))
    else
      var init :- ReadInts(file, lim, c, elem, n - 1);
      var v :- ReadScalar(file, lim, init.1, elem);
      var wide :- Widened(v.0);
      Ok((init.0 + [wide], v.1))
  }

  /** The width of an integer or boolean element; zero for anything else. */
  function IntWidth(elem: nat): nat {
    if elem == UINT8 || elem == INT8 || elem == BOOL then 1
    else if elem == UINT16 || elem == INT16 then 2
    else if elem == UINT32 || elem == INT32 then 4
    else if elem == UINT64 || elem == INT64 then 8
    else 0
  }

  function Remaining(file: Bytes, c: Cursor): nat {
    if c.off <= |file| then |file| - c.off else 0
  }

  /** Could n elements of this width still be in the file? */
  predicate Enough(file: Bytes, c: Cursor, n: nat, width: nat)
    requires width > 0
  {
    n <= Remaining(file, c) / width
  }

  function ReadElements(file: Bytes, lim: Limits, c: Cursor, elem: nat, n: nat): Result<(Data, Cursor)> {
    if elem == STRING then
      if !Enough(file, c, n, 8) then Err("truncated GGUF string array")
      else
        var paid :- ChargeEach(c, n, STRING_COST);
        var a :- ReadStrs(file, lim, paid, n);
        Ok((Strings(a.0), a.1))
    else if elem == FLOAT32 || elem == FLOAT64 then
      if !Enough(file, c, n, if elem == FLOAT32 then 4 else 8) then Err("truncated GGUF float array")
      else
        var paid :- ChargeEach(c, n, 8);
        var a :- ReadFloats(file, paid, elem == FLOAT32, n);
        Ok((Floats(a.0), a.1))
    else
      var width := IntWidth(elem);
      if width == 0 then Err("unsupported GGUF array element type")
      else if !Enough(file, c, n, width) then Err("truncated GGUF integer array")
      else
        var paid :- ChargeEach(c, n, 8);
        var a :- ReadInts(file, lim, paid, elem, n);
        Ok((Ints(a.0), a.1))
  }

  function ReadArray(file: Bytes, lim: Limits, c: Cursor): Result<(Data, Cursor)> {
    var elem :- ReadUint(file, c, 4);
    if elem.0 == ARRAY then Err("nested GGUF arrays are unsupported")
    else
      var n :- ReadUint(file, elem.1, 8);
      if n.0 > lim.maxArray then Err("GGUF array exceeds parser element limit")
      else ReadElements(file, lim, n.1, elem.0, n.0)
  }

  function ReadValue(file: Bytes, lim: Limits, c: Cursor, t: nat): Result<(Value, Cursor)> {
    var d :- if t == ARRAY then ReadArray(file, lim, c) else ReadScalar(file, lim, c, t);
    Ok((Value(t, d.0), d.1))
  }

  // ----- Metadata and tensor descriptors

  predicate HasKey(items: seq<Item>, key: Bytes) {
    exists i :: 0 <= i < |items| && items[i].key == key
  }

  function ReadItems(file: Bytes, lim: Limits, c: Cursor, n: nat): Result<(seq<Item>, Cursor)> {
    if n == 0 then Ok(([], c))
    else
      var init :- ReadItems(file, lim, c, n - 1);
      var key :- ReadStr(file, lim, init.1);
      var ty :- ReadUint(file, key.1, 4);
      var v :- ReadValue(file, lim, ty.1, ty.0);
      if HasKey(init.0, key.0) then Err("duplicate GGUF metadata key") else Ok((init.0 + [Item(key.0, v.0)], v.1))
  }

  function ReadDims(file: Bytes, c: Cursor, n: nat): Result<(seq<nat>, Cursor)> {
    if n == 0 then Ok(([], c))
    else
      var init :- ReadDims(file, c, n - 1);
      var d :- ReadUint(file, init.1, 8);
      if d.0 == 0 then Err("zero tensor dimension") else Ok((init.0 + [d.0], d.1))
  }

  function ReadInfo(file: Bytes, lim: Limits, c: Cursor): Result<(Info, Cursor)> {
    var name :- ReadStr(file, lim, c);
    var nd :- ReadUint(file, name.1, 4);
    if nd.0 == 0 || nd.0 > 4 then Err("invalid tensor dimensions")
    else
      var paid :- ChargeEach(nd.1, nd.0, 8);
      var dims :- ReadDims(file, paid, nd.0);
      var ty :- ReadUint(file, dims.1, 4);
      var rel :- ReadUint(file, ty.1, 8);
      Ok((Info(name.0, dims.0, ty.0, rel.0), rel.1))
  }

  function ReadInfos(file: Bytes, lim: Limits, c: Cursor, n: nat): Result<(seq<Info>, Cursor)> {
    if n == 0 then Ok(([], c))
    else
      var init :- ReadInfos(file, lim, c, n - 1);
      var info :- ReadInfo(file, lim, init.1);
      Ok((init.0 + [info.0], info.1))
  }

  // ----- Alignment, in the bit arithmetic the program uses

  function BitAnd(a: nat, b: nat): nat {
    if a == 0 || b == 0 then 0
    else (if a % 2 == 1 && b % 2 == 1 then 1 else 0) + 2 * BitAnd(a / 2, b / 2)
  }

  /** a & ~b. */
  function AndNot(a: nat, b: nat): nat {
    if a == 0 then 0 else (if a % 2 == 1 && b % 2 == 0 then 1 else 0) + 2 * AndNot(a / 2, b / 2)
  }

  function AsUnsigned(d: Data): Result<nat> {
    match d
    case U(u) => Ok(u)
    case I(i) => if i < 0 then Err("negative metadata value") else Ok(i)
    case _ => Err("metadata value is not integer")
  }

  function Lookup(items: seq<Item>, key: Bytes): Option<Value> {
    if |items| == 0 then None
    else if items[|items| - 1].key == key then Some(items[|items| - 1].value)
    else Lookup(items[..|items| - 1], key)
  }

  /** "general.alignment" */
  const ALIGNMENT_KEY: Bytes := [103, 101, 110, 101, 114, 97, 108, 46, 97, 108, 105, 103, 110, 109, 101, 110, 116]

  function Alignment(items: seq<Item>): (r: Result<nat>)
    ensures r.Ok? ==> r.value > 0
  {
    var align :- match Lookup(items, ALIGNMENT_KEY) case None => Ok(32) case Some(v) => AsUnsigned(v.data);
    if align == 0 || BitAnd(align, align - 1) != 0 then Err("invalid GGUF alignment") else Ok(align)
  }

  function DataOffset(pos: nat, align: nat): Result<nat>
    requires align > 0
  {
    if align - 1 > U64_MAX || pos > U64_MAX - (align - 1) then Err("GGUF data offset overflow")
    else Ok(AndNot(pos + align - 1, align - 1))
  }

  // ----- Tensors

  function Mul64(a: nat, b: nat): Result<nat> {
    if a > 0 && b > U64_MAX / a then Err("size overflow") else Ok(a * b)
  }

  /** The element count, dimension by dimension, each product checked. */
  function Elements(dims: seq<nat>): Result<nat> {
    if |dims| == 0 then Ok(1)
    else
      var n :- Elements(dims[..|dims| - 1]);
      var d := dims[|dims| - 1];
      if d == 0 then Err("zero tensor dimension")
      else if n > U64_MAX / d then Err("tensor element overflow")
      else Ok(n * d)
  }

  /** Elements per block and bytes per block; None for a type without a size. */
  function Layout(ty: nat): Option<(nat, nat)> {
    if ty == 0 then Some((1, 4))
    else if ty == 1 then Some((1, 2))
    else if ty == 2 then Some((32, 18))
    else if ty == 3 then Some((32, 20))
    else if ty == 6 then Some((32, 22))
    else if ty == 7 then Some((32, 24))
    else if ty == 8 then Some((32, 34))
    else if ty == 10 then Some((256, 84))
    else if ty == 11 then Some((256, 110))
    else if ty == 12 then Some((256, 144))
    else if ty == 13 then Some((256, 176))
    else if ty == 14 then Some((256, 210))
    else if ty == 24 then Some((1, 1))
    else if ty == 25 then Some((1, 2))
    else if ty == 26 then Some((1, 4))
    else if ty == 27 then Some((1, 8))
    else if ty == 28 then Some((1, 8))
    else if ty == 30 then Some((1, 2))
    else None
  }

  function RowBlock(ty: nat): nat {
    if ty == 2 || ty == 3 || ty == 6 || ty == 7 || ty == 8 then 32
    else if 10 <= ty <= 14 then 256
    else 1
  }

  function TensorBytes(ty: nat, n: nat): Result<nat> {
    match Layout(ty)
    case None => Err("unsupported GGML type for byte-size calculation")
    case Some((qk, size)) =>
      if qk == 0 || n % qk != 0 then Err("quantized tensor element count is not block aligned") else Mul64(n / qk, size)
  }

  predicate HasTensor(ts: seq<Tensor>, name: Bytes) {
    exists i :: 0 <= i < |ts| && ts[i].name == name
  }

  function BuildTensor(size: nat, dataOffset: nat, x: Info): Result<Tensor> {
    var qk := RowBlock(x.ty);
    if qk > 1 && |x.dims| > 0 && x.dims[0] % qk != 0 then Err("quantized tensor row is not block aligned")
    else if dataOffset > U64_MAX || x.rel > U64_MAX - dataOffset then Err("tensor offset overflow")
    else
      var n :- Elements(x.dims);
      var nbytes :- TensorBytes(x.ty, n);
      var offset := dataOffset + x.rel;
      if offset > size || nbytes > size - offset then Err("tensor out of file bounds")
      else Ok(Tensor(x.name, x.dims, x.ty, offset, nbytes))
  }

  function BuildTensors(size: nat, dataOffset: nat, infos: seq<Info>): Result<seq<Tensor>> {
    if |infos| == 0 then Ok([])
    else
      var init :- BuildTensors(size, dataOffset, infos[..|infos| - 1]);
      var t :- BuildTensor(size, dataOffset, infos[|infos| - 1]);
      if HasTensor(init, t.name) then Err("duplicate GGUF tensor") else Ok(init + [t])
  }

  // ----- The whole file

  const MAGIC: Bytes := [71, 71, 85, 70]

  function ReadBytes(file: Bytes, c: Cursor, n: nat): Result<(Bytes, Cursor)> {
    if n == 0 then Ok(([], c))
    else
      var init :- ReadBytes(file, c, n - 1);
      var v :- ReadUint(file, init.1, 1);
      Ok((init.0 + [v.0 % 256], v.1))
  }

  datatype Head = Head(version: nat, items: seq<Item>, infos: seq<Info>, at: Cursor)

  function ReadCounts(file: Bytes, lim: Limits): Result<(nat, nat, nat, Cursor)> {
    var magic :- ReadBytes(file, Cursor(0, lim.maxHeap), 4);
    if magic.0 != MAGIC then Err("not a GGUF file")
    else
      var version :- ReadUint(file, magic.1, 4);
      if version.0 < 2 || version.0 > 3 then Err("unsupported GGUF version")
      else
        var nt :- ReadUint(file, version.1, 8);
        var nkv :- ReadUint(file, nt.1, 8);
        if nt.0 > lim.maxTensors || nkv.0 > lim.maxItems then Err("GGUF item count exceeds parser limit")
        else Ok((version.0, nt.0, nkv.0, nkv.1))
  }

  function ReadHead(file: Bytes, lim: Limits): Result<Head> {
    var counts :- ReadCounts(file, lim);
    var paid :- ChargeEach(counts.3, counts.2, ITEM_COST);
    var items :- ReadItems(file, lim, paid, counts.2);
    var more :- ChargeEach(items.1, counts.1, INFO_COST);
    var infos :- ReadInfos(file, lim, more, counts.1);
    Ok(Head(counts.0, items.0, infos.0, infos.1))
  }

  function Parse(file: Bytes, lim: Limits): Result<File> {
    var head :- ReadHead(file, lim);
    var align :- Alignment(head.items);
    var dataOffset :- DataOffset(head.at.off, align);
    if |head.infos| > 0 && dataOffset > |file| then Err("GGUF data section starts beyond file bounds")
    else
      var paid :- ChargeEach(head.at, |head.infos|, TENSOR_COST);
      var tensors :- BuildTensors(|file|, dataOffset, head.infos);
      Ok(File(head.version, head.items, align, head.at.off, dataOffset, tensors))
  }
}
