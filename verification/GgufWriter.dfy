/**
 * The two GGUF writers of the fixture scripts, one with tensors and one of metadata alone, and the proof that the
 * parser undoes them: metadata, tensor shapes and every tensor's exact payload come back.
 */
module GgufWriter {
  import opened Common
  import opened Arithmetic
  import opened Gguf
  import opened GgufAccepted

  datatype Entry = Str(s: Bytes) | U32(v: nat) | F32(bits: nat) | Flag(b: bool)
                 | StrArray(a: seq<Bytes>) | FloatArray(f: seq<nat>) | IntArray(i: seq<int>)

  datatype Meta = Meta(key: Bytes, entry: Entry)

  datatype Source = Source(name: Bytes, dims: seq<nat>, ty: nat, data: Bytes)

  // ----- The bytes

  function Pow256(w: nat): nat {
    if w == 0 then 1 else 256 * Pow256(w - 1)
  }

  function Le(v: nat, w: nat): (b: Bytes)
    ensures |b| == w
  {
    if w == 0 then [] else [v % 256] + Le(v / 256, w - 1)
  }

  function StrBytes(x: Bytes): Bytes {
    Le(|x|, 8) + x
  }

  function StrsBytes(a: seq<Bytes>): Bytes {
    if |a| == 0 then [] else StrsBytes(a[..|a| - 1]) + StrBytes(a[|a| - 1])
  }

  /** Unsigned integers of w bytes, one after the other. */
  function UintsBytes(a: seq<nat>, w: nat): (b: Bytes)
    ensures |b| == SlotOff(|a|, w)
  {
    if |a| == 0 then [] else UintsBytes(a[..|a| - 1], w) + Le(a[|a| - 1], w)
  }

  /** A 32-bit integer as its unsigned bit pattern. */
  function Unsigned(v: int): nat {
    if v < 0 then (if v + U32_LIMIT < 0 then 0 else v + U32_LIMIT) else v
  }

  function Patterns(a: seq<int>): (r: seq<nat>)
    ensures |r| == |a|
  {
    if |a| == 0 then [] else Patterns(a[..|a| - 1]) + [Unsigned(a[|a| - 1])]
  }

  function TypeOf(e: Entry): nat {
    match e
    case Str(_) => STRING
    case U32(_) => UINT32
    case F32(_) => FLOAT32
    case Flag(_) => BOOL
    case _ => ARRAY
  }

  function Payload(e: Entry): Bytes {
    match e
    case Str(s) => StrBytes(s)
    case U32(v) => Le(v, 4)
    case F32(bits) => Le(bits, 4)
    case Flag(b) => [if b then 1 else 0]
    case StrArray(a) => Le(STRING, 4) + Le(|a|, 8) + StrsBytes(a)
    case FloatArray(a) => Le(FLOAT32, 4) + Le(|a|, 8) + UintsBytes(a, 4)
    case IntArray(a) => Le(INT32, 4) + Le(|a|, 8) + UintsBytes(Patterns(a), 4)
  }

  function MetaBytes(m: Meta): Bytes {
    StrBytes(m.key) + (Le(TypeOf(m.entry), 4) + Payload(m.entry))
  }

  function MetasBytes(ms: seq<Meta>): Bytes {
    if |ms| == 0 then [] else MetasBytes(ms[..|ms| - 1]) + MetaBytes(ms[|ms| - 1])
  }

  function Up32(n: nat): nat {
    (n + 31) / 32 * 32
  }

  /** Where the payloads of these tensors end, each starting on a multiple of 32. */
  function End(ts: seq<Source>): nat {
    if |ts| == 0 then 0 else Up32(End(ts[..|ts| - 1])) + |ts[|ts| - 1].data|
  }

  function InfoBytes(t: Source, rel: nat): Bytes {
    StrBytes(t.name) + (Le(|t.dims|, 4) + (UintsBytes(t.dims, 8) + (Le(t.ty, 4) + Le(rel, 8))))
  }

  function InfosBytes(ts: seq<Source>): Bytes {
    if |ts| == 0 then []
    else InfosBytes(ts[..|ts| - 1]) + InfoBytes(ts[|ts| - 1], Up32(End(ts[..|ts| - 1])))
  }

  function Zeros(n: nat): (b: Bytes)
    ensures |b| == n
  {
    if n == 0 then [] else Zeros(n - 1) + [0]
  }

  lemma Up32Bounds(n: nat)
    ensures n <= Up32(n) < n + 32
  {
  }

  /** The payloads with the gaps between them. */
  function DataBytes(ts: seq<Source>): (b: Bytes)
    ensures |b| == End(ts)
  {
    if |ts| == 0 then []
    else
      var before := ts[..|ts| - 1];
      Up32Bounds(End(before));
      DataBytes(before) + Zeros(Up32(End(before)) - End(before)) + ts[|ts| - 1].data
  }

  function Counts(ms: seq<Meta>, ts: seq<Source>): Bytes {
    MAGIC + (Le(3, 4) + (Le(|ts|, 8) + Le(|ms|, 8)))
  }

  function Header(ms: seq<Meta>, ts: seq<Source>): Bytes {
    Counts(ms, ts) + (MetasBytes(ms) + InfosBytes(ts))
  }

  function Write(ms: seq<Meta>, ts: seq<Source>): Bytes {
    var h := Header(ms, ts);
    Up32Bounds(|h|);
    h + (Zeros(Up32(|h|) - |h|) + DataBytes(ts))
  }

  /** The writer of tokenizer fixtures: metadata alone, no tensors and no padding. */
  function WriteMetadata(ms: seq<Meta>): Bytes {
    MAGIC + (Le(3, 4) + (Le(0, 8) + Le(|ms|, 8))) + MetasBytes(ms)
  }

  // ----- The writers' loops

  /** Each payload's offset from the data start. */
  method Offsets(ts: seq<Source>) returns (offsets: seq<nat>)
    ensures |offsets| == |ts| && forall i :: 0 <= i < |ts| ==> offsets[i] == Up32(End(ts[..i]))
  {
    hide Up32;
    offsets := [];
    var off := 0;
    for i := 0 to |ts|
      invariant |offsets| == i && off == End(ts[..i])
      invariant forall j :: 0 <= j < i ==> offsets[j] == Up32(End(ts[..j]))
    {
      off := Up32(off);
      offsets := offsets + [off];
      off := off + |ts[i].data|;
      assert ts[..i + 1][..i] == ts[..i];
    }
  }

  method Descriptors(ts: seq<Source>, offsets: seq<nat>) returns (ti: Bytes)
    requires |offsets| == |ts| && forall i :: 0 <= i < |ts| ==> offsets[i] == Up32(End(ts[..i]))
    ensures ti == InfosBytes(ts)
  {
    hide Up32, InfoBytes, End;
    ti := [];
    for i := 0 to |ts|
      invariant ti == InfosBytes(ts[..i])
    {
      assert ts[..i + 1][..i] == ts[..i];
      ti := ti + InfoBytes(ts[i], offsets[i]);
    }
    assert ts[..|ts|] == ts;
  }

  method MetadataBytes(ms: seq<Meta>) returns (kv: Bytes)
    ensures kv == MetasBytes(ms)
  {
    hide MetaBytes;
    kv := [];
    for i := 0 to |ms|
      invariant kv == MetasBytes(ms[..i])
    {
      assert ms[..i + 1][..i] == ms[..i];
      kv := kv + MetaBytes(ms[i]);
    }
    assert ms[..|ms|] == ms;
  }

  /** The payloads, each moved up to its offset with zeros. */
  method AppendData(front: Bytes, ts: seq<Source>, offsets: seq<nat>) returns (out: Bytes)
    requires |offsets| == |ts| && forall i :: 0 <= i < |ts| ==> offsets[i] == Up32(End(ts[..i]))
    ensures out == front + DataBytes(ts)
  {
    hide Up32;
    out := front;
    for i := 0 to |ts|
      invariant out == front + DataBytes(ts[..i])
    {
      assert ts[..i + 1][..i] == ts[..i];
      Up32Bounds(End(ts[..i]));
      var target := |front| + offsets[i];
      ghost var gap := Up32(End(ts[..i])) - End(ts[..i]);
      if |out| < target {
        out := out + Zeros(target - |out|);
      }
      assert out == front + (DataBytes(ts[..i]) + Zeros(gap));
      out := out + ts[i].data;
      assert out == front + (DataBytes(ts[..i]) + Zeros(gap) + ts[i].data);
    }
    assert ts[..|ts|] == ts;
  }

  method WriteMetadataFile(ms: seq<Meta>) returns (blob: Bytes)
    ensures blob == WriteMetadata(ms)
  {
    hide MetasBytes, Le;
    var kv := MetadataBytes(ms);
    blob := MAGIC + (Le(3, 4) + (Le(0, 8) + Le(|ms|, 8))) + kv;
  }

  method WriteFile(ms: seq<Meta>, ts: seq<Source>) returns (out: Bytes)
    ensures out == Write(ms, ts)
  {
    hide Up32, MetasBytes, InfosBytes, DataBytes, End, Le;
    var kv := MetadataBytes(ms);
    var offsets := Offsets(ts);
    var ti := Descriptors(ts, offsets);
    var prefix := MAGIC + Le(3, 4) + Le(|ts|, 8) + Le(|ms|, 8) + kv + ti;
    assert prefix == Header(ms, ts);
    Up32Bounds(|prefix|);
    out := prefix + Zeros(Up32(|prefix|) - |prefix|);
    out := AppendData(out, ts, offsets);
  }

  // ----- What should come back

  function Singles(a: seq<nat>): (r: seq<Float>)
    ensures |r| == |a|
  {
    if |a| == 0 then [] else Singles(a[..|a| - 1]) + [Single(a[|a| - 1])]
  }

  function ValueOf(e: Entry): Value {
    match e
    case Str(s) => Value(STRING, S(s))
    case U32(v) => Value(UINT32, U(v))
    case F32(bits) => Value(FLOAT32, F(Single(bits)))
    case Flag(b) => Value(BOOL, B(b))
    case StrArray(a) => Value(ARRAY, Strings(a))
    case FloatArray(a) => Value(ARRAY, Floats(Singles(a)))
    case IntArray(a) => Value(ARRAY, Ints(a))
  }

  function ItemsOf(ms: seq<Meta>): (r: seq<Item>)
    ensures |r| == |ms|
  {
    if |ms| == 0 then []
    else ItemsOf(ms[..|ms| - 1]) + [Item(ms[|ms| - 1].key, ValueOf(ms[|ms| - 1].entry))]
  }

  function InfosOf(ts: seq<Source>): (r: seq<Info>)
    ensures |r| == |ts|
  {
    if |ts| == 0 then []
    else
      var t := ts[|ts| - 1];
      InfosOf(ts[..|ts| - 1]) + [Info(t.name, t.dims, t.ty, Up32(End(ts[..|ts| - 1])))]
  }

  /** The parsed tensors: same names, shapes and types, at their offsets, as long as their payloads. */
  function TensorsOf(ts: seq<Source>, start: nat): (r: seq<Tensor>)
    ensures |r| == |ts|
  {
    if |ts| == 0 then []
    else
      var t := ts[|ts| - 1];
      TensorsOf(ts[..|ts| - 1], start) + [Tensor(t.name, t.dims, t.ty, start + Up32(End(ts[..|ts| - 1])), |t.data|)]
  }

  // ----- Values that fit their encodings and the limits

  predicate StrFits(x: Bytes, lim: Limits) {
    |x| <= lim.maxString && |x| < U64_LIMIT
  }

  predicate EntryFits(e: Entry, lim: Limits) {
    match e
    case Str(s) => StrFits(s, lim)
    case U32(v) => v < U32_LIMIT
    case F32(bits) => bits < U32_LIMIT
    case Flag(_) => true
    case StrArray(a) => |a| <= lim.maxArray && forall i :: 0 <= i < |a| ==> StrFits(a[i], lim)
    case FloatArray(a) => |a| <= lim.maxArray && forall i :: 0 <= i < |a| ==> a[i] < U32_LIMIT
    case IntArray(a) => |a| <= lim.maxArray && forall i :: 0 <= i < |a| ==> -0x8000_0000 <= a[i] < 0x8000_0000
  }

  predicate MetasFit(ms: seq<Meta>, lim: Limits) {
    forall i :: 0 <= i < |ms| ==> StrFits(ms[i].key, lim) && EntryFits(ms[i].entry, lim)
  }

  /**
   * A shape and payload the parser accepts: one to four nonzero dimensions, whole quantization blocks, matching
   * length.
   */
  predicate SourceFits(t: Source, lim: Limits) {
    && StrFits(t.name, lim) && t.ty < U32_LIMIT
    && 1 <= |t.dims| <= 4 && (forall i :: 0 <= i < |t.dims| ==> 0 < t.dims[i] < U64_LIMIT)
    && t.dims[0] % RowBlock(t.ty) == 0
    && Product(t.dims) <= U64_MAX
    && SizeMatches(t.ty, Product(t.dims), |t.data|)
  }

  predicate SourcesFit(ts: seq<Source>, lim: Limits) {
    forall i :: 0 <= i < |ts| ==> SourceFits(ts[i], lim)
  }

  ghost predicate DistinctMetaKeys(ms: seq<Meta>) {
    forall i, j :: 0 <= i < j < |ms| ==> ms[i].key != ms[j].key
  }

  ghost predicate DistinctSourceNames(ts: seq<Source>) {
    forall i, j :: 0 <= i < j < |ts| ==> ts[i].name != ts[j].name
  }

  /** The heap budget that parsing will charge. */
  function BudgetOf(ms: seq<Meta>, ts: seq<Source>): nat {
    ITEM_COST * |ms| + ItemsCost(ItemsOf(ms)) + (INFO_COST + TENSOR_COST) * |ts| + InfosCost(InfosOf(ts))
  }

  // ----- Reading back

  /** The encoding stands at this offset. */
  predicate Has(file: Bytes, off: nat, enc: Bytes) {
    off + |enc| <= |file| && file[off..off + |enc|] == enc
  }

  lemma HasSplit(file: Bytes, off: nat, a: Bytes, b: Bytes)
    requires Has(file, off, a + b)
    ensures Has(file, off, a) && Has(file, off + |a|, b)
  {
    var both := file[off..off + |a + b|];
    assert both == a + b;
    assert file[off..off + |a|] == both[..|a|] == a;
    assert file[off + |a|..off + |a| + |b|] == both[|a|..] == b;
  }

  lemma {:induction false} LeBack(v: nat, w: nat)
    requires v < Pow256(w)
    ensures LeValue(Le(v, w)) == v
  {
    if w > 0 {
      assert v / 256 < Pow256(w - 1);
      LeBack(v / 256, w - 1);
      assert Le(v, w)[1..] == Le(v / 256, w - 1);
    }
  }

  lemma Widths()
    ensures Pow256(1) == 256 && Pow256(4) == U32_LIMIT && Pow256(8) == U64_LIMIT
  {
  }

  lemma UintBack(file: Bytes, off: nat, heap: nat, v: nat, w: nat)
    requires Has(file, off, Le(v, w)) && v < Pow256(w)
    ensures ReadUint(file, Cursor(off, heap), w) == Ok((v, Cursor(off + w, heap)))
  {
    hide Le, Pow256, LeValue;
    LeBack(v, w);
  }

  lemma StrBack(file: Bytes, lim: Limits, off: nat, heap: nat, x: Bytes)
    requires Has(file, off, StrBytes(x)) && StrFits(x, lim) && |x| <= heap
    ensures ReadStr(file, lim, Cursor(off, heap)) == Ok((x, Cursor(off + 8 + |x|, heap - |x|)))
  {
    hide Le, Pow256, LeValue;
    Widths();
    HasSplit(file, off, Le(|x|, 8), x);
    UintBack(file, off, heap, |x|, 8);
  }

  lemma {:induction false} StrsLong(a: seq<Bytes>)
    ensures |StrsBytes(a)| == 8 * |a| + Lengths(a)
  {
    if |a| > 0 {
      StrsLong(a[..|a| - 1]);
    }
  }

  lemma StrLong(x: Bytes)
    ensures |StrBytes(x)| == 8 + |x|
  {
  }

  lemma {:induction false} StrsBack(file: Bytes, lim: Limits, off: nat, heap: nat, a: seq<Bytes>)
    requires Has(file, off, StrsBytes(a)) && Lengths(a) <= heap && forall i :: 0 <= i < |a| ==> StrFits(a[i], lim)
    ensures ReadStrs(file, lim, Cursor(off, heap), |a|) == Ok((a, Cursor(off + |StrsBytes(a)|, heap - Lengths(a))))
  {
    hide ReadStr, StrBytes, Has;
    if |a| > 0 {
      var init, last := a[..|a| - 1], a[|a| - 1];
      HasSplit(file, off, StrsBytes(init), StrBytes(last));
      StrsBack(file, lim, off, heap, init);
      StrBack(file, lim, off + |StrsBytes(init)|, heap - Lengths(init), last);
      StrLong(last);
      assert init + [last] == a;
    }
  }

  lemma {:induction false} FloatsBack(file: Bytes, off: nat, heap: nat, a: seq<nat>)
    requires Has(file, off, UintsBytes(a, 4)) && forall i :: 0 <= i < |a| ==> a[i] < U32_LIMIT
    ensures ReadFloats(file, Cursor(off, heap), true, |a|) == Ok((Singles(a), Cursor(off + SlotOff(|a|, 4), heap)))
  {
    hide ReadUint, Le, Has;
    if |a| > 0 {
      Widths();
      var init, last := a[..|a| - 1], a[|a| - 1];
      HasSplit(file, off, UintsBytes(init, 4), Le(last, 4));
      FloatsBack(file, off, heap, init);
      UintBack(file, off + SlotOff(|init|, 4), heap, last, 4);
    }
  }

  lemma SignedBack(v: int)
    requires -0x8000_0000 <= v < 0x8000_0000
    ensures Unsigned(v) < U32_LIMIT && Signed(Unsigned(v), U32_LIMIT) == v
  {
  }

  lemma IntBack(file: Bytes, lim: Limits, off: nat, heap: nat, v: int)
    requires Has(file, off, Le(Unsigned(v), 4)) && -0x8000_0000 <= v < 0x8000_0000
    ensures ReadScalar(file, lim, Cursor(off, heap), INT32) == Ok((I(v), Cursor(off + 4, heap)))
  {
    hide Le, LeValue, Pow256;
    Widths();
    SignedBack(v);
    UintBack(file, off, heap, Unsigned(v), 4);
  }

  lemma {:induction false} IntsBack(file: Bytes, lim: Limits, off: nat, heap: nat, a: seq<int>)
    requires Has(file, off, UintsBytes(Patterns(a), 4))
             && forall i :: 0 <= i < |a| ==> -0x8000_0000 <= a[i] < 0x8000_0000
    ensures ReadInts(file, lim, Cursor(off, heap), INT32, |a|) == Ok((a, Cursor(off + SlotOff(|a|, 4), heap)))
  {
    hide ReadScalar, Le, Has, Unsigned;
    if |a| > 0 {
      var init, last := a[..|a| - 1], a[|a| - 1];
      assert Patterns(a)[..|a| - 1] == Patterns(init);
      HasSplit(file, off, UintsBytes(Patterns(init), 4), Le(Unsigned(last), 4));
      IntsBack(file, lim, off, heap, init);
      IntBack(file, lim, off + SlotOff(|init|, 4), heap, last);
      assert init + [last] == a;
    }
  }

  // ----- Metadata

  lemma ChargeFits(c: Cursor, n: nat, each: nat)
    requires each == 8 || each == STRING_COST || each == ITEM_COST || each == INFO_COST || each == TENSOR_COST
    requires each * n <= c.heap <= U64_MAX
    ensures ChargeEach(c, n, each) == Ok(c.(heap := c.heap - each * n))
  {
  }

  /** The array header and how the reader continues after it. */
  lemma ArrayBack(file: Bytes, lim: Limits, off: nat, heap: nat, elem: nat, n: nat, rest: Bytes)
    requires Has(file, off, Le(elem, 4) + Le(n, 8) + rest) && elem != ARRAY && elem < U32_LIMIT && n < U64_LIMIT
             && n <= lim.maxArray
    ensures Has(file, off + 12, rest)
    ensures ReadArray(file, lim, Cursor(off, heap)) == ReadElements(file, lim, Cursor(off + 12, heap), elem, n)
  {
    hide Le, LeValue, Pow256, ReadElements;
    Widths();
    HasSplit(file, off, Le(elem, 4) + Le(n, 8), rest);
    HasSplit(file, off, Le(elem, 4), Le(n, 8));
    UintBack(file, off, heap, elem, 4);
    UintBack(file, off + 4, heap, n, 8);
  }

  lemma RoomFor(file: Bytes, c: Cursor, k: nat, n: nat, w: nat)
    requires c.off + k <= |file| && n * w <= k && (w == 4 || w == 8)
    ensures Enough(file, c, n, w)
  {
  }

  lemma StrArrayBack(file: Bytes, lim: Limits, off: nat, heap: nat, a: seq<Bytes>)
    requires Has(file, off, StrsBytes(a)) && forall i :: 0 <= i < |a| ==> StrFits(a[i], lim)
    requires STRING_COST * |a| + Lengths(a) <= heap <= U64_MAX
    ensures ReadElements(file, lim, Cursor(off, heap), STRING, |a|)
         == Ok((Strings(a), Cursor(off + |StrsBytes(a)|, heap - STRING_COST * |a| - Lengths(a))))
  {
    hide ReadStrs, StrsBytes, Lengths, Enough;
    StrsLong(a);
    RoomFor(file, Cursor(off, heap), |StrsBytes(a)|, |a|, 8);
    ChargeFits(Cursor(off, heap), |a|, STRING_COST);
    StrsBack(file, lim, off, heap - STRING_COST * |a|, a);
  }

  lemma IntElements(file: Bytes, lim: Limits, c: Cursor, n: nat, paid: Cursor, a: seq<int>, end: Cursor)
    requires Enough(file, c, n, 4) && ChargeEach(c, n, 8) == Ok(paid)
             && ReadInts(file, lim, paid, INT32, n) == Ok((a, end))
    ensures ReadElements(file, lim, c, INT32, n) == Ok((Ints(a), end))
  {
    hide Enough, ReadInts, ChargeEach;
  }

  lemma FloatElements(file: Bytes, lim: Limits, c: Cursor, n: nat, paid: Cursor, a: seq<Float>, end: Cursor)
    requires Enough(file, c, n, 4) && ChargeEach(c, n, 8) == Ok(paid) && ReadFloats(file, paid, true, n) == Ok((a, end))
    ensures ReadElements(file, lim, c, FLOAT32, n) == Ok((Floats(a), end))
  {
    hide Enough, ReadFloats, ChargeEach;
  }

  /** An array of n four-byte elements: it fits what is left, and its decoded size is charged. */
  lemma FourByteArray(file: Bytes, off: nat, heap: nat, n: nat, enc: Bytes, w: nat)
    requires Has(file, off, enc) && w == 4 && |enc| == SlotOff(n, w) && 8 * n <= heap <= U64_MAX
    ensures Enough(file, Cursor(off, heap), n, w)
    ensures ChargeEach(Cursor(off, heap), n, 8) == Ok(Cursor(off, heap - 8 * n))
  {
    SlotOffIsProduct(n, w);
    RoomFor(file, Cursor(off, heap), |enc|, n, w);
    ChargeFits(Cursor(off, heap), n, 8);
  }

  lemma FloatArrayBack(file: Bytes, lim: Limits, off: nat, heap: nat, a: seq<nat>, w: nat)
    requires w == 4 && Has(file, off, UintsBytes(a, w)) && (forall i :: 0 <= i < |a| ==> a[i] < U32_LIMIT)
             && 8 * |a| <= heap <= U64_MAX
    ensures ReadElements(file, lim, Cursor(off, heap), FLOAT32, |a|)
         == Ok((Floats(Singles(a)), Cursor(off + SlotOff(|a|, w), heap - 8 * |a|)))
  {
    hide ReadFloats, UintsBytes, Singles, SlotOff, Enough, ReadElements, ChargeEach, Has;
    FourByteArray(file, off, heap, |a|, UintsBytes(a, w), w);
    FloatsBack(file, off, heap - 8 * |a|, a);
    FloatElements(file, lim, Cursor(off, heap), |a|, Cursor(off, heap - 8 * |a|), Singles(a),
        Cursor(off + SlotOff(|a|, w), heap - 8 * |a|));
  }

  lemma IntArrayBack(file: Bytes, lim: Limits, off: nat, heap: nat, a: seq<int>, w: nat)
    requires w == 4 && Has(file, off, UintsBytes(Patterns(a), w))
             && (forall i :: 0 <= i < |a| ==> -0x8000_0000 <= a[i] < 0x8000_0000)
    requires 8 * |a| <= heap <= U64_MAX
    ensures ReadElements(file, lim, Cursor(off, heap), INT32, |a|)
         == Ok((Ints(a), Cursor(off + SlotOff(|a|, w), heap - 8 * |a|)))
  {
    hide ReadInts, UintsBytes, Patterns, SlotOff, Enough, ReadElements, ChargeEach, Has;
    FourByteArray(file, off, heap, |a|, UintsBytes(Patterns(a), w), w);
    IntsBack(file, lim, off, heap - 8 * |a|, a);
    IntElements(file, lim, Cursor(off, heap), |a|, Cursor(off, heap - 8 * |a|), a,
        Cursor(off + SlotOff(|a|, w), heap - 8 * |a|));
  }

  lemma OneByte(file: Bytes, off: nat, heap: nat, v: Byte)
    requires Has(file, off, [v])
    ensures ReadUint(file, Cursor(off, heap), 1) == Ok((v, Cursor(off + 1, heap)))
  {
    var b := file[off..off + |[v]|];
    assert b == [v] && b[1..] == [];
    assert LeValue(b) == b[0] + 256 * LeValue(b[1..]);
    assert LeValue(b[1..]) == 0;
  }

  /** A metadata value comes back, integer arrays widened, and is charged what it costs. */
  lemma EntryBack(file: Bytes, lim: Limits, off: nat, heap: nat, e: Entry)
    requires Has(file, off, Payload(e)) && EntryFits(e, lim) && DataCost(ValueOf(e).data) <= heap <= U64_MAX
    requires lim.maxArray <= U64_MAX
    ensures ReadValue(file, lim, Cursor(off, heap), TypeOf(e))
         == Ok((ValueOf(e), Cursor(off + |Payload(e)|, heap - DataCost(ValueOf(e).data))))
  {
    hide Le, LeValue, Pow256, ReadElements, StrsBytes, UintsBytes, Singles, Patterns, Lengths, Has, StrBytes, ReadStr;
    Widths();
    match e {
      case Str(s) =>
        StrBack(file, lim, off, heap - STRING_COST, s);
        StrLong(s);
      case U32(v) => UintBack(file, off, heap, v, 4);
      case F32(bits) => UintBack(file, off, heap, bits, 4);
      case Flag(b) =>
        OneByte(file, off, heap, if b then 1 else 0);
      case StrArray(a) =>
        ArrayBack(file, lim, off, heap, STRING, |a|, StrsBytes(a));
        StrArrayBack(file, lim, off + 12, heap, a);
      case FloatArray(a) =>
        ArrayBack(file, lim, off, heap, FLOAT32, |a|, UintsBytes(a, 4));
        FloatArrayBack(file, lim, off + 12, heap, a, 4);
      case IntArray(a) =>
        ArrayBack(file, lim, off, heap, INT32, |a|, UintsBytes(Patterns(a), 4));
        IntArrayBack(file, lim, off + 12, heap, a, 4);
    }
  }

  lemma MetaBack(file: Bytes, lim: Limits, off: nat, heap: nat, m: Meta)
    requires Has(file, off, MetaBytes(m)) && StrFits(m.key, lim) && EntryFits(m.entry, lim) && lim.maxArray <= U64_MAX
    requires |m.key| + DataCost(ValueOf(m.entry).data) <= heap <= U64_MAX
    ensures var k := off + |StrBytes(m.key)|;
            && ReadStr(file, lim, Cursor(off, heap)) == Ok((m.key, Cursor(k, heap - |m.key|)))
            && ReadUint(file, Cursor(k, heap - |m.key|), 4) == Ok((TypeOf(m.entry), Cursor(k + 4, heap - |m.key|)))
            && ReadValue(file, lim, Cursor(k + 4, heap - |m.key|), TypeOf(m.entry))
               == Ok((ValueOf(m.entry), Cursor(off + |MetaBytes(m)|, heap - |m.key| - DataCost(ValueOf(m.entry).data))))
  {
    hide Le, LeValue, Pow256, Has, StrBytes, ReadStr, ReadValue, ReadUint, Payload, DataCost, ValueOf;
    Widths();
    HasSplit(file, off, StrBytes(m.key), Le(TypeOf(m.entry), 4) + Payload(m.entry));
    HasSplit(file, off + |StrBytes(m.key)|, Le(TypeOf(m.entry), 4), Payload(m.entry));
    StrLong(m.key);
    StrBack(file, lim, off, heap, m.key);
    UintBack(file, off + |StrBytes(m.key)|, heap - |m.key|, TypeOf(m.entry), 4);
    EntryBack(file, lim, off + |StrBytes(m.key)| + 4, heap - |m.key|, m.entry);
  }

  lemma {:induction false} KeysOf(ms: seq<Meta>, key: Bytes)
    ensures HasKey(ItemsOf(ms), key) <==> exists i :: 0 <= i < |ms| && ms[i].key == key
  {
    if |ms| > 0 {
      var init := ms[..|ms| - 1];
      KeysOf(init, key);
      var items, before := ItemsOf(ms), ItemsOf(init);
      assert items == before + [Item(ms[|ms| - 1].key, ValueOf(ms[|ms| - 1].entry))];
      if HasKey(before, key) {
        var i :| 0 <= i < |before| && before[i].key == key;
        assert items[i].key == key;
        var j :| 0 <= j < |init| && init[j].key == key;
        assert ms[j].key == key;
      } else if ms[|ms| - 1].key == key {
        assert items[|ms| - 1].key == key;
      }
    }
  }

  /** The last entry of a list with distinct keys is new, and the others still qualify. */
  lemma LastMeta(ms: seq<Meta>, lim: Limits)
    requires |ms| > 0 && MetasFit(ms, lim) && DistinctMetaKeys(ms)
    ensures var init, last := ms[..|ms| - 1], ms[|ms| - 1];
            && MetasFit(init, lim) && DistinctMetaKeys(init) && !HasKey(ItemsOf(init), last.key)
            && StrFits(last.key, lim) && EntryFits(last.entry, lim)
  {
    hide HasKey, ItemsOf, EntryFits, StrFits;
    KeysOf(ms[..|ms| - 1], ms[|ms| - 1].key);
  }

  lemma {:induction false} MetasBack(file: Bytes, lim: Limits, off: nat, heap: nat, ms: seq<Meta>)
    requires Has(file, off, MetasBytes(ms)) && MetasFit(ms, lim) && DistinctMetaKeys(ms) && lim.maxArray <= U64_MAX
    requires ItemsCost(ItemsOf(ms)) <= heap <= U64_MAX
    ensures ReadItems(file, lim, Cursor(off, heap), |ms|)
         == Ok((ItemsOf(ms), Cursor(off + |MetasBytes(ms)|, heap - ItemsCost(ItemsOf(ms)))))
  {
    hide Has, MetaBytes, ReadStr, ReadUint, ReadValue, DataCost, ValueOf, HasKey, MetasFit,
         DistinctMetaKeys;
    if |ms| > 0 {
      var init, last := ms[..|ms| - 1], ms[|ms| - 1];
      HasSplit(file, off, MetasBytes(init), MetaBytes(last));
      assert ItemsOf(ms)[..|ms| - 1] == ItemsOf(init);
      LastMeta(ms, lim);
      MetasBack(file, lim, off, heap, init);
      MetaBack(file, lim, off + |MetasBytes(init)|, heap - ItemsCost(ItemsOf(init)), last);
    }
  }

  // ----- Tensor descriptors

  lemma {:induction false} DimsBack(file: Bytes, off: nat, heap: nat, dims: seq<nat>)
    requires Has(file, off, UintsBytes(dims, 8)) && forall i :: 0 <= i < |dims| ==> 0 < dims[i] < U64_LIMIT
    ensures ReadDims(file, Cursor(off, heap), |dims|) == Ok((dims, Cursor(off + SlotOff(|dims|, 8), heap)))
  {
    hide ReadUint, Le, Has, Pow256;
    if |dims| > 0 {
      Widths();
      var init, last := dims[..|dims| - 1], dims[|dims| - 1];
      HasSplit(file, off, UintsBytes(init, 8), Le(last, 8));
      DimsBack(file, off, heap, init);
      UintBack(file, off + SlotOff(|init|, 8), heap, last, 8);
      assert init + [last] == dims;
    }
  }

  lemma InfoLength(t: Source, rel: nat)
    ensures |InfoBytes(t, rel)| == 8 + |t.name| + 4 + SlotOff(|t.dims|, 8) + 12
  {
    StrLong(t.name);
  }

  lemma InfoBack(file: Bytes, lim: Limits, off: nat, heap: nat, t: Source, rel: nat)
    requires Has(file, off, InfoBytes(t, rel)) && SourceFits(t, lim) && rel < U64_LIMIT
    requires |t.name| + 8 * |t.dims| <= heap <= U64_MAX
    ensures ReadInfo(file, lim, Cursor(off, heap))
         == Ok((Info(t.name, t.dims, t.ty, rel), Cursor(off + |InfoBytes(t, rel)|, heap - |t.name| - 8 * |t.dims|)))
  {
    hide Le, LeValue, Pow256, Has, StrBytes, ReadStr, ReadUint, UintsBytes, ReadDims, Product, SizeMatches, RowBlock;
    Widths();
    InfoLength(t, rel);
    StrLong(t.name);
    var o1 := off + |StrBytes(t.name)|;
    var o2 := o1 + 4 + SlotOff(|t.dims|, 8);
    HasSplit(file, off, StrBytes(t.name), Le(|t.dims|, 4) + (UintsBytes(t.dims, 8) + (Le(t.ty, 4) + Le(rel, 8))));
    HasSplit(file, o1, Le(|t.dims|, 4), UintsBytes(t.dims, 8) + (Le(t.ty, 4) + Le(rel, 8)));
    HasSplit(file, o1 + 4, UintsBytes(t.dims, 8), Le(t.ty, 4) + Le(rel, 8));
    HasSplit(file, o2, Le(t.ty, 4), Le(rel, 8));
    StrBack(file, lim, off, heap, t.name);
    UintBack(file, o1, heap - |t.name|, |t.dims|, 4);
    ChargeFits(Cursor(o1 + 4, heap - |t.name|), |t.dims|, 8);
    DimsBack(file, o1 + 4, heap - |t.name| - 8 * |t.dims|, t.dims);
    UintBack(file, o2, heap - |t.name| - 8 * |t.dims|, t.ty, 4);
    UintBack(file, o2 + 4, heap - |t.name| - 8 * |t.dims|, rel, 8);
  }

  lemma {:induction false} InfosBack(file: Bytes, lim: Limits, off: nat, heap: nat, ts: seq<Source>)
    requires Has(file, off, InfosBytes(ts)) && SourcesFit(ts, lim) && End(ts) < U64_LIMIT
    requires InfosCost(InfosOf(ts)) <= heap <= U64_MAX
    ensures ReadInfos(file, lim, Cursor(off, heap), |ts|)
         == Ok((InfosOf(ts), Cursor(off + |InfosBytes(ts)|, heap - InfosCost(InfosOf(ts)))))
  {
    hide Has, InfoBytes, ReadInfo, Up32, SourceFits;
    if |ts| > 0 {
      var init, last := ts[..|ts| - 1], ts[|ts| - 1];
      var rel := Up32(End(init));
      Up32Bounds(End(init));
      HasSplit(file, off, InfosBytes(init), InfoBytes(last, rel));
      assert InfosOf(ts)[..|ts| - 1] == InfosOf(init);
      InfosBack(file, lim, off, heap, init);
      InfoBack(file, lim, off + |InfosBytes(init)|, heap - InfosCost(InfosOf(init)), last, rel);
    }
  }

  // ----- The header

  lemma {:induction false} BytesBack(file: Bytes, off: nat, heap: nat, b: Bytes)
    requires Has(file, off, b)
    ensures ReadBytes(file, Cursor(off, heap), |b|) == Ok((b, Cursor(off + |b|, heap)))
  {
    hide ReadUint, Has;
    if |b| > 0 {
      var init, last := b[..|b| - 1], b[|b| - 1];
      assert init + [last] == b;
      HasSplit(file, off, init, [last]);
      BytesBack(file, off, heap, init);
      OneByte(file, off + |init|, heap, last);
    }
  }

  lemma CountsBack(file: Bytes, lim: Limits, ms: seq<Meta>, ts: seq<Source>)
    requires Has(file, 0, Counts(ms, ts)) && |ms| <= lim.maxItems && |ts| <= lim.maxTensors && |ms| < U64_LIMIT
             && |ts| < U64_LIMIT
    ensures ReadCounts(file, lim) == Ok((3, |ts|, |ms|, Cursor(24, lim.maxHeap)))
  {
    hide Le, Pow256, ReadBytes, ReadUint, Has;
    Widths();
    HasSplit(file, 0, MAGIC, Le(3, 4) + (Le(|ts|, 8) + Le(|ms|, 8)));
    HasSplit(file, 4, Le(3, 4), Le(|ts|, 8) + Le(|ms|, 8));
    HasSplit(file, 8, Le(|ts|, 8), Le(|ms|, 8));
    BytesBack(file, 0, lim.maxHeap, MAGIC);
    UintBack(file, 4, lim.maxHeap, 3, 4);
    UintBack(file, 8, lim.maxHeap, |ts|, 8);
    UintBack(file, 16, lim.maxHeap, |ms|, 8);
  }

  /** The limits are 64-bit values, and the counts and the budget are within them. */
  predicate WithinLimits(ms: seq<Meta>, ts: seq<Source>, lim: Limits) {
    && lim.maxTensors <= U64_MAX && lim.maxItems <= U64_MAX && lim.maxArray <= U64_MAX && lim.maxHeap <= U64_MAX
    && |ms| <= lim.maxItems && |ts| <= lim.maxTensors
    && MetasFit(ms, lim) && SourcesFit(ts, lim)
    && BudgetOf(ms, ts) <= lim.maxHeap
  }

  lemma CountsLong(ms: seq<Meta>, ts: seq<Source>)
    ensures |Counts(ms, ts)| == 24
  {
  }

  lemma HeadBack(file: Bytes, lim: Limits, ms: seq<Meta>, ts: seq<Source>)
    requires Has(file, 0, Header(ms, ts)) && WithinLimits(ms, ts, lim) && DistinctMetaKeys(ms) && End(ts) < U64_LIMIT
    ensures ReadHead(file, lim) ==
      Ok(Head(3, ItemsOf(ms), InfosOf(ts),
              Cursor(|Header(ms, ts)|, lim.maxHeap - ITEM_COST * |ms| - ItemsCost(ItemsOf(ms))
                                       - INFO_COST * |ts| - InfosCost(InfosOf(ts)))))
  {
    hide Le, ReadCounts, ReadItems, ReadInfos, ChargeEach, Counts, MetasBytes, InfosBytes, ItemsOf, InfosOf,
         ItemsCost, InfosCost, Has, MetasFit, SourcesFit, DistinctMetaKeys, End;
    HasSplit(file, 0, Counts(ms, ts), MetasBytes(ms) + InfosBytes(ts));
    CountsLong(ms, ts);
    HasSplit(file, 24, MetasBytes(ms), InfosBytes(ts));
    CountsBack(file, lim, ms, ts);
    var h1 := lim.maxHeap - ITEM_COST * |ms|;
    ChargeFits(Cursor(24, lim.maxHeap), |ms|, ITEM_COST);
    MetasBack(file, lim, 24, h1, ms);
    var h2 := h1 - ItemsCost(ItemsOf(ms));
    var at := 24 + |MetasBytes(ms)|;
    ChargeFits(Cursor(at, h2), |ts|, INFO_COST);
    InfosBack(file, lim, at, h2 - INFO_COST * |ts|, ts);
  }

  // ----- Alignment and tensors

  /** What the metadata declares as alignment. */
  function Declared(ms: seq<Meta>): Option<Entry> {
    if |ms| == 0 then None
    else if ms[|ms| - 1].key == ALIGNMENT_KEY then Some(ms[|ms| - 1].entry)
    else Declared(ms[..|ms| - 1])
  }

  /** The fixtures align to 32 and say so, or say nothing. */
  predicate AlignedTo32(ms: seq<Meta>) {
    Declared(ms).None? || Declared(ms) == Some(U32(32))
  }

  lemma {:induction false} LookupDeclared(ms: seq<Meta>)
    ensures var d := Declared(ms);
            Lookup(ItemsOf(ms), ALIGNMENT_KEY) == if d.None? then None else Some(ValueOf(d.value))
  {
    if |ms| > 0 {
      LookupDeclared(ms[..|ms| - 1]);
      assert ItemsOf(ms)[..|ms| - 1] == ItemsOf(ms[..|ms| - 1]);
    }
  }

  lemma ThirtyTwo()
    ensures Power(32) && BitAnd(32, 31) == 0
  {
    assert Power(1) && Power(2) && Power(4) && Power(8) && Power(16);
    BitAndEven(32);
  }

  lemma AlignmentBack(ms: seq<Meta>)
    requires AlignedTo32(ms)
    ensures Alignment(ItemsOf(ms)) == Ok(32)
  {
    hide Lookup, ItemsOf, BitAnd, Declared;
    LookupDeclared(ms);
    ThirtyTwo();
  }

  lemma OffsetBack(pos: nat)
    requires pos + 31 <= U64_MAX
    ensures DataOffset(pos, 32) == Ok(Up32(pos))
  {
    hide AndNot, Power;
    ThirtyTwo();
    AndNotRoundsDown(pos + 31, 32);
  }

  lemma {:induction false} ElementsBack(dims: seq<nat>)
    requires Product(dims) <= U64_MAX && forall i :: 0 <= i < |dims| ==> dims[i] > 0
    ensures Elements(dims) == Ok(Product(dims))
  {
    if |dims| > 0 {
      var init, d := dims[..|dims| - 1], dims[|dims| - 1];
      AtLeastOne(d, Product(init));
      assert d * Product(init) == Product(init) * d;
      ElementsBack(init);
      ProductFits(Product(init), d, U64_MAX);
    }
  }

  lemma MulBack(a: nat, b: nat)
    requires a * b <= U64_MAX
    ensures Mul64(a, b) == Ok(a * b)
  {
    if a > 0 {
      ProductFits(b, a, U64_MAX);
      assert b * a == a * b;
    }
  }

  lemma TensorBytesBack(ty: nat, n: nat, nbytes: nat)
    requires SizeMatches(ty, n, nbytes) && nbytes <= U64_MAX
    ensures TensorBytes(ty, n) == Ok(nbytes)
  {
    var k := Layout(ty).value;
    MulBack(n / k.0, k.1);
  }

  lemma TensorBack(size: nat, start: nat, t: Source, lim: Limits, rel: nat)
    requires SourceFits(t, lim) && start + rel + |t.data| <= size <= U64_MAX
    ensures BuildTensor(size, start, Info(t.name, t.dims, t.ty, rel))
            == Ok(Tensor(t.name, t.dims, t.ty, start + rel, |t.data|))
  {
    hide Product, Elements, Layout, TensorBytes, SizeMatches, RowBlock;
    ElementsBack(t.dims);
    TensorBytesBack(t.ty, Product(t.dims), |t.data|);
  }

  lemma {:induction false} NamesOf(ts: seq<Source>, start: nat, name: Bytes)
    ensures HasTensor(TensorsOf(ts, start), name) <==> exists i :: 0 <= i < |ts| && ts[i].name == name
  {
    if |ts| > 0 {
      var init := ts[..|ts| - 1];
      NamesOf(init, start, name);
      var all, before := TensorsOf(ts, start), TensorsOf(init, start);
      if HasTensor(before, name) {
        var i :| 0 <= i < |before| && before[i].name == name;
        assert all[i].name == name;
        var j :| 0 <= j < |init| && init[j].name == name;
        assert ts[j].name == name;
      } else if ts[|ts| - 1].name == name {
        assert all[|ts| - 1].name == name;
      }
    }
  }

  lemma {:induction false} TensorsBack(size: nat, start: nat, ts: seq<Source>, lim: Limits)
    requires SourcesFit(ts, lim) && DistinctSourceNames(ts) && start + End(ts) <= size <= U64_MAX
    ensures BuildTensors(size, start, InfosOf(ts)) == Ok(TensorsOf(ts, start))
  {
    hide BuildTensor, SourceFits, Up32, HasTensor;
    if |ts| > 0 {
      var init, last := ts[..|ts| - 1], ts[|ts| - 1];
      Up32Bounds(End(init));
      assert InfosOf(ts)[..|ts| - 1] == InfosOf(init);
      TensorsBack(size, start, init, lim);
      TensorBack(size, start, last, lim, Up32(End(init)));
      NamesOf(init, start, last.name);
    }
  }

  lemma SlicePrefix(s: Bytes, p: Bytes, lo: nat, hi: nat)
    requires |p| <= |s| && s[..|p|] == p && lo <= hi <= |p|
    ensures s[lo..hi] == p[lo..hi]
  {
    assert s[..|p|][lo..hi] == s[lo..hi];
  }

  /** Where tensor i's payload lies, and that it is there. */
  lemma {:induction false} PayloadAt(ts: seq<Source>, start: nat, i: nat)
    requires i < |ts|
    ensures var t := TensorsOf(ts, start)[i];
            && t.name == ts[i].name && t.dims == ts[i].dims && t.ty == ts[i].ty && t.nbytes == |ts[i].data|
            && start <= t.offset && t.offset - start + t.nbytes <= End(ts)
            && DataBytes(ts)[t.offset - start..t.offset - start + t.nbytes] == ts[i].data
  {
    hide Up32, Zeros;
    var init, last := ts[..|ts| - 1], ts[|ts| - 1];
    Up32Bounds(End(init));
    var front := DataBytes(init) + Zeros(Up32(End(init)) - End(init));
    assert DataBytes(ts) == front + last.data && |front| == Up32(End(init));
    if i < |ts| - 1 {
      PayloadAt(init, start, i);
      var t := TensorsOf(init, start)[i];
      assert TensorsOf(ts, start)[i] == t;
      assert DataBytes(ts)[..End(init)] == DataBytes(init);
      SlicePrefix(DataBytes(ts), DataBytes(init), t.offset - start, t.offset - start + t.nbytes);
    }
  }

  lemma SliceSuffix(s: Bytes, front: Bytes, d: Bytes, lo: nat, hi: nat)
    requires s == front + d && lo <= hi <= |d|
    ensures s[|front| + lo..|front| + hi] == d[lo..hi]
  {
  }

  // ----- Parsing undoes writing

  lemma WriteLayout(ms: seq<Meta>, ts: seq<Source>)
    ensures var f, h := Write(ms, ts), |Header(ms, ts)|;
            && |f| == Up32(h) + End(ts) && Has(f, 0, Header(ms, ts)) && h <= Up32(h) < h + 32
            && f == f[..Up32(h)] + DataBytes(ts)
  {
    hide Header, DataBytes, End, Up32;
    var h := Header(ms, ts);
    Up32Bounds(|h|);
    var front := h + Zeros(Up32(|h|) - |h|);
    assert Write(ms, ts) == front + DataBytes(ts);
  }

  /**
   * The writer rounds its data start to 32, the parser to the metadata's alignment. They agree when that alignment is
   * usable and, if there is any tensor, rounds the header up to the same place.
   */
  predicate StartsAgree(ms: seq<Meta>, ts: seq<Source>) {
    var align := Alignment(ItemsOf(ms));
    var h := |Header(ms, ts)|;
    && align.Ok? && DataOffset(h, align.value).Ok?
    && (|ts| > 0 ==> DataOffset(h, align.value).value == Up32(h))
  }

  ghost predicate Restored(ms: seq<Meta>, ts: seq<Source>, r: Result<File>) {
    r.Ok? && r.value.items == ItemsOf(ms) && r.value.tensors == TensorsOf(ts, Up32(|Header(ms, ts)|))
  }

  lemma InfosOfInfos(ts: seq<Source>, i: nat)
    requires i < |ts|
    ensures InfosOf(ts)[i].rel == Up32(End(ts[..i]))
  {
    if i < |ts| - 1 {
      InfosOfInfos(ts[..|ts| - 1], i);
      assert ts[..|ts| - 1][..i] == ts[..i];
    }
  }

  lemma LastBuilt(size: nat, start: nat, infos: seq<Info>)
    requires |infos| > 0 && BuildTensors(size, start, infos).Ok?
    ensures var ts := BuildTensors(size, start, infos).value;
            |ts| > 0 && ts[|ts| - 1].offset == start + infos[|infos| - 1].rel
  {
  }

  /** Tensors built from a different data start are different tensors. */
  lemma OtherStart(size: nat, start: nat, other: nat, ts: seq<Source>)
    requires |ts| > 0 && BuildTensors(size, other, InfosOf(ts)).Ok? && other != start
    ensures BuildTensors(size, other, InfosOf(ts)).value != TensorsOf(ts, start)
  {
    hide BuildTensors, Up32;
    var infos := InfosOf(ts);
    var last := |ts| - 1;
    LastBuilt(size, other, infos);
    InfosOfInfos(ts, last);
  }

  lemma NoTensors(size: nat, d: nat, start: nat, ts: seq<Source>)
    requires |ts| == 0
    ensures BuildTensors(size, d, InfosOf(ts)) == Ok(TensorsOf(ts, start))
  {
  }

  /** Parsing restores what was written exactly when the two data starts agree. */
  lemma ParseUndoesWrite(ms: seq<Meta>, ts: seq<Source>, lim: Limits)
    requires WithinLimits(ms, ts, lim) && DistinctMetaKeys(ms) && DistinctSourceNames(ts)
    requires |Write(ms, ts)| <= U64_MAX
    ensures Restored(ms, ts, Parse(Write(ms, ts), lim)) <==> StartsAgree(ms, ts)
  {
    hide Write, Header, End, ReadHead, Alignment, DataOffset, BuildTensors, ItemsOf, InfosOf, TensorsOf, Up32,
         ChargeEach,
         ItemsCost, InfosCost, MetasFit, SourcesFit, DistinctMetaKeys, DistinctSourceNames, Has, DataBytes;
    var f, h := Write(ms, ts), |Header(ms, ts)|;
    WriteLayout(ms, ts);
    HeadBack(f, lim, ms, ts);
    var heap := lim.maxHeap - ITEM_COST * |ms| - ItemsCost(ItemsOf(ms)) - INFO_COST * |ts| - InfosCost(InfosOf(ts));
    ChargeFits(Cursor(h, heap), |ts|, TENSOR_COST);
    TensorsBack(|f|, Up32(h), ts, lim);
    var align := Alignment(ItemsOf(ms));
    if align.Ok? && DataOffset(h, align.value).Ok? {
      var d := DataOffset(h, align.value).value;
      if |ts| == 0 {
        NoTensors(|f|, d, Up32(h), ts);
      } else if d != Up32(h) && BuildTensors(|f|, d, InfosOf(ts)).Ok? {
        OtherStart(|f|, Up32(h), d, ts);
      }
    }
  }

  lemma HeaderInFile(ms: seq<Meta>, ts: seq<Source>)
    ensures |Header(ms, ts)| <= |Write(ms, ts)|
  {
  }

  /** A fixture that declares the alignment it was written with, or none, comes back whole. */
  lemma FixturesComeBack(ms: seq<Meta>, ts: seq<Source>, lim: Limits)
    requires WithinLimits(ms, ts, lim) && DistinctMetaKeys(ms) && DistinctSourceNames(ts) && AlignedTo32(ms)
    requires |Write(ms, ts)| + 31 <= U64_MAX
    ensures Restored(ms, ts, Parse(Write(ms, ts), lim))
  {
    hide Write, Header, ItemsOf, Alignment, DataOffset, Up32, Restored, WithinLimits, DistinctMetaKeys,
         DistinctSourceNames, AlignedTo32;
    ParseUndoesWrite(ms, ts, lim);
    AlignmentBack(ms);
    HeaderInFile(ms, ts);
    OffsetBack(|Header(ms, ts)|);
  }

  // ----- Files of metadata alone

  /** The parser can round a header of this size up to the declared alignment: a power of two, and no overflow. */
  predicate UsableAlignment(ms: seq<Meta>, size: nat) {
    match Declared(ms)
    case None => size + 31 <= U64_MAX
    case Some(e) => e.U32? && Power(e.v) && size + e.v - 1 <= U64_MAX
  }

  lemma ZeroIsNoPower()
    ensures !Power(0)
  {
  }

  lemma UsableIsAccepted(ms: seq<Meta>, size: nat)
    ensures UsableAlignment(ms, size)
       <==> Alignment(ItemsOf(ms)).Ok? && DataOffset(size, Alignment(ItemsOf(ms)).value).Ok?
  {
    hide Lookup, ItemsOf, BitAnd, Power, Declared, AndNot;
    LookupDeclared(ms);
    match Declared(ms) {
      case None => ThirtyTwo();
      case Some(e) =>
        if e.U32? && e.v > 0 {
          BitAndEven(e.v);
        } else {
          ZeroIsNoPower();
        }
    }
  }

  lemma MetadataIsHeader(ms: seq<Meta>)
    ensures WriteMetadata(ms) == Header(ms, [])
  {
    hide Le, MetasBytes;
    assert InfosBytes([]) == [];
    assert MetasBytes(ms) + [] == MetasBytes(ms);
  }

  ghost predicate MetadataRestored(ms: seq<Meta>, r: Result<File>) {
    r.Ok? && r.value.items == ItemsOf(ms) && r.value.tensors == []
  }

  /** Every value of a file of metadata alone comes back exactly when the parser can use its alignment. */
  lemma MetadataComesBack(ms: seq<Meta>, lim: Limits)
    requires WithinLimits(ms, [], lim) && DistinctMetaKeys(ms)
    ensures MetadataRestored(ms, Parse(WriteMetadata(ms), lim)) <==> UsableAlignment(ms, |WriteMetadata(ms)|)
  {
    hide WriteMetadata, Header, ReadHead, Alignment, DataOffset, ItemsOf, ChargeEach, ItemsCost, MetasFit, SourcesFit,
         DistinctMetaKeys, UsableAlignment;
    var f := WriteMetadata(ms);
    MetadataIsHeader(ms);
    HeadBack(f, lim, ms, []);
    ChargeFits(Cursor(|f|, lim.maxHeap - ITEM_COST * |ms| - ItemsCost(ItemsOf(ms))), 0, TENSOR_COST);
    UsableIsAccepted(ms, |f|);
  }

  lemma KeyLength()
    ensures |ALIGNMENT_KEY| == 17
  {
  }

  lemma SmallHeader(ms: seq<Meta>, ts: seq<Source>)
    requires ms == [Meta(ALIGNMENT_KEY, U32(64))] && ts == [Source([116], [1], 0, [1, 2, 3, 4])]
    ensures |Header(ms, ts)| == 90
  {
    hide Le, ALIGNMENT_KEY;
    assert ms[..0] == [] && ts[..0] == [];
    StrLong(ALIGNMENT_KEY);
    KeyLength();
    InfoLength(ts[0], Up32(End(ts[..0])));
    SlotOffIsProduct(1, 8);
    CountsLong(ms, ts);
    assert |MetaBytes(ms[0])| == 33 && MetasBytes(ms) == MetasBytes(ms[..0]) + MetaBytes(ms[0]);
    assert InfosBytes(ts) == InfosBytes(ts[..0]) + InfoBytes(ts[0], Up32(End(ts[..0])));
    assert |InfosBytes(ts)| == 33 && |MetasBytes(ms)| == 33;
  }

  lemma SmallOffset(ms: seq<Meta>)
    requires ms == [Meta(ALIGNMENT_KEY, U32(64))]
    ensures Alignment(ItemsOf(ms)) == Ok(64) && DataOffset(90, 64) == Ok(128)
  {
    assert ms[..0] == [];
    assert ItemsOf(ms) == [Item(ALIGNMENT_KEY, Value(UINT32, U(64)))];
    assert Power(1) && Power(2) && Power(4) && Power(8) && Power(16) && Power(32) && Power(64);
    BitAndEven(64);
    AndNotRoundsDown(153, 64);
  }

  lemma SmallFile(ms: seq<Meta>, ts: seq<Source>)
    requires |Header(ms, ts)| == 90 && ts == [Source([116], [1], 0, [1, 2, 3, 4])]
    ensures |Write(ms, ts)| <= U64_MAX
  {
    hide Header;
    assert ts[..0] == [];
    WriteLayout(ms, ts);
  }

  /** A fixture that declares 64 while the writer rounds to 32: one float after a 90-byte header does not come back. */
  lemma DeclaredAlignmentIsLost(lim: Limits)
    requires var ms, ts := [Meta(ALIGNMENT_KEY, U32(64))], [Source([116], [1], 0, [1, 2, 3, 4])];
             WithinLimits(ms, ts, lim)
    ensures var ms, ts := [Meta(ALIGNMENT_KEY, U32(64))], [Source([116], [1], 0, [1, 2, 3, 4])];
            !Restored(ms, ts, Parse(Write(ms, ts), lim))
  {
    var ms, ts := [Meta(ALIGNMENT_KEY, U32(64))], [Source([116], [1], 0, [1, 2, 3, 4])];
    SmallHeader(ms, ts);
    SmallOffset(ms);
    SmallFile(ms, ts);
    ParseUndoesWrite(ms, ts, lim);
  }

  /** A restored tensor's place in the file holds its exact payload. */
  lemma PayloadsComeBack(ms: seq<Meta>, ts: seq<Source>, r: Result<File>, i: nat)
    requires Restored(ms, ts, r) && i < |ts|
    ensures var t := r.value.tensors[i];
            && t.name == ts[i].name && t.dims == ts[i].dims && t.ty == ts[i].ty
            && t.offset + t.nbytes <= |Write(ms, ts)|
            && Write(ms, ts)[t.offset..t.offset + t.nbytes] == ts[i].data
  {
    hide Write, Header, Up32, DataBytes, TensorsOf, End;
    var f, start := Write(ms, ts), Up32(|Header(ms, ts)|);
    WriteLayout(ms, ts);
    PayloadAt(ts, start, i);
    var t := TensorsOf(ts, start)[i];
    SliceSuffix(f, f[..start], DataBytes(ts), t.offset - start, t.offset - start + t.nbytes);
  }
}
