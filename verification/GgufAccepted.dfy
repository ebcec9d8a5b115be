/**
 * What acceptance by the GGUF parser guarantees, for every byte string: an aligned data section, tensors inside the
 * file with sizes that match their shapes, unique names, and decoded data that exactly accounts for the heap budget.
 */
module GgufAccepted {
  import opened Common
  import opened Arithmetic
  import opened Gguf

  // ----- The heap account

  function Lengths(a: seq<Bytes>): nat {
    if |a| == 0 then 0 else Lengths(a[..|a| - 1]) + |a[|a| - 1]|
  }

  /** What a decoded value is charged for: its strings and its array elements. */
  function DataCost(d: Data): nat {
    match d
    case S(s) => STRING_COST + |s|
    case Ints(a) => 8 * |a|
    case Floats(a) => 8 * |a|
    case Strings(a) => STRING_COST * |a| + Lengths(a)
    case _ => 0
  }

  function ItemsCost(items: seq<Item>): nat {
    if |items| == 0 then 0
    else ItemsCost(items[..|items| - 1]) + |items[|items| - 1].key| + DataCost(items[|items| - 1].value.data)
  }

  function InfosCost(infos: seq<Info>): nat {
    if |infos| == 0 then 0
    else InfosCost(infos[..|infos| - 1]) + |infos[|infos| - 1].name| + 8 * |infos[|infos| - 1].dims|
  }

  /** The reader moved forward inside the file and paid exactly `cost`. */
  predicate Moves(file: Bytes, c: Cursor, c': Cursor, cost: nat) {
    c.off <= c'.off <= |file| && c'.heap + cost == c.heap
  }

  lemma StrMoves(file: Bytes, lim: Limits, c: Cursor)
    requires c.off <= |file| && ReadStr(file, lim, c).Ok?
    ensures var r := ReadStr(file, lim, c).value; Moves(file, c, r.1, |r.0|) && |r.0| <= lim.maxString
  {
  }

  lemma ScalarMoves(file: Bytes, lim: Limits, c: Cursor, t: nat)
    requires c.off <= |file| && ReadScalar(file, lim, c, t).Ok?
    ensures var r := ReadScalar(file, lim, c, t).value; Moves(file, c, r.1, DataCost(r.0))
    ensures IntWidth(t) > 0 ==> DataCost(ReadScalar(file, lim, c, t).value.0) == 0
  {
    hide LeValue;
    if t == STRING {
      StrMoves(file, lim, Charge(c, STRING_COST).value);
    }
  }

  lemma {:induction false} StrsMove(file: Bytes, lim: Limits, c: Cursor, n: nat)
    requires c.off <= |file| && ReadStrs(file, lim, c, n).Ok?
    ensures var r := ReadStrs(file, lim, c, n).value; Moves(file, c, r.1, Lengths(r.0)) && |r.0| == n
  {
    hide ReadStr;
    if n > 0 {
      StrsMove(file, lim, c, n - 1);
      var init := ReadStrs(file, lim, c, n - 1).value;
      StrMoves(file, lim, init.1);
      var s := ReadStr(file, lim, init.1).value.0;
      assert (init.0 + [s])[..n - 1] == init.0;
    }
  }

  lemma {:induction false} FloatsMove(file: Bytes, c: Cursor, single: bool, n: nat)
    requires c.off <= |file| && ReadFloats(file, c, single, n).Ok?
    ensures var r := ReadFloats(file, c, single, n).value; Moves(file, c, r.1, 0) && |r.0| == n
  {
    hide LeValue;
    if n > 0 {
      FloatsMove(file, c, single, n - 1);
    }
  }

  lemma {:induction false} IntsMove(file: Bytes, lim: Limits, c: Cursor, elem: nat, n: nat)
    requires c.off <= |file| && IntWidth(elem) > 0 && ReadInts(file, lim, c, elem, n).Ok?
    ensures var r := ReadInts(file, lim, c, elem, n).value; Moves(file, c, r.1, 0) && |r.0| == n
  {
    hide ReadScalar;
    if n > 0 {
      IntsMove(file, lim, c, elem, n - 1);
      ScalarMoves(file, lim, ReadInts(file, lim, c, elem, n - 1).value.1, elem);
    }
  }

  lemma ElementsMove(file: Bytes, lim: Limits, c: Cursor, elem: nat, n: nat)
    requires c.off <= |file| && ReadElements(file, lim, c, elem, n).Ok?
    ensures var r := ReadElements(file, lim, c, elem, n).value; Moves(file, c, r.1, DataCost(r.0))
  {
    hide ReadStrs, ReadFloats, ReadInts, Lengths;
    if elem == STRING {
      StrsMove(file, lim, ChargeEach(c, n, STRING_COST).value, n);
    } else if elem == FLOAT32 || elem == FLOAT64 {
      FloatsMove(file, ChargeEach(c, n, 8).value, elem == FLOAT32, n);
    } else {
      IntsMove(file, lim, ChargeEach(c, n, 8).value, elem, n);
    }
  }

  lemma ValueMoves(file: Bytes, lim: Limits, c: Cursor, t: nat)
    requires c.off <= |file| && ReadValue(file, lim, c, t).Ok?
    ensures var r := ReadValue(file, lim, c, t).value; Moves(file, c, r.1, DataCost(r.0.data))
  {
    hide ReadElements, ReadScalar, LeValue, DataCost;
    if t == ARRAY {
      var elem := ReadUint(file, c, 4).value;
      var n := ReadUint(file, elem.1, 8).value;
      ElementsMove(file, lim, n.1, elem.0, n.0);
    } else {
      ScalarMoves(file, lim, c, t);
    }
  }

  ghost predicate DistinctKeys(items: seq<Item>) {
    forall i, j :: 0 <= i < j < |items| ==> items[i].key != items[j].key
  }

  lemma {:induction false} ItemsMove(file: Bytes, lim: Limits, c: Cursor, n: nat)
    requires c.off <= |file| && ReadItems(file, lim, c, n).Ok?
    ensures var r := ReadItems(file, lim, c, n).value;
            Moves(file, c, r.1, ItemsCost(r.0)) && |r.0| == n && DistinctKeys(r.0)
  {
    hide ReadStr, ReadValue, LeValue, DataCost;
    if n > 0 {
      ItemsMove(file, lim, c, n - 1);
      var init := ReadItems(file, lim, c, n - 1).value;
      StrMoves(file, lim, init.1);
      var key := ReadStr(file, lim, init.1).value;
      var ty := ReadUint(file, key.1, 4).value;
      ValueMoves(file, lim, ty.1, ty.0);
      var all := ReadItems(file, lim, c, n).value.0;
      assert all[..n - 1] == init.0;
    }
  }

  ghost predicate GoodDims(dims: seq<nat>) {
    forall i :: 0 <= i < |dims| ==> dims[i] > 0
  }

  lemma {:induction false} DimsMove(file: Bytes, c: Cursor, n: nat)
    requires c.off <= |file| && ReadDims(file, c, n).Ok?
    ensures var r := ReadDims(file, c, n).value; Moves(file, c, r.1, 0) && |r.0| == n && GoodDims(r.0)
  {
    hide LeValue;
    if n > 0 {
      DimsMove(file, c, n - 1);
    }
  }

  predicate GoodInfo(x: Info) {
    1 <= |x.dims| <= 4 && forall i :: 0 <= i < |x.dims| ==> x.dims[i] > 0
  }

  lemma InfoMoves(file: Bytes, lim: Limits, c: Cursor)
    requires c.off <= |file| && ReadInfo(file, lim, c).Ok?
    ensures var r := ReadInfo(file, lim, c).value; Moves(file, c, r.1, |r.0.name| + 8 * |r.0.dims|) && GoodInfo(r.0)
  {
    hide ReadStr, ReadDims, LeValue;
    StrMoves(file, lim, c);
    var nd := ReadUint(file, ReadStr(file, lim, c).value.1, 4).value;
    DimsMove(file, ChargeEach(nd.1, nd.0, 8).value, nd.0);
  }

  lemma {:induction false} InfosMove(file: Bytes, lim: Limits, c: Cursor, n: nat)
    requires c.off <= |file| && ReadInfos(file, lim, c, n).Ok?
    ensures var r := ReadInfos(file, lim, c, n).value;
            && Moves(file, c, r.1, InfosCost(r.0)) && |r.0| == n
            && forall i :: 0 <= i < n ==> GoodInfo(r.0[i])
  {
    hide ReadInfo;
    if n > 0 {
      InfosMove(file, lim, c, n - 1);
      var init := ReadInfos(file, lim, c, n - 1).value;
      InfoMoves(file, lim, init.1);
      var all := ReadInfos(file, lim, c, n).value.0;
      assert all[..n - 1] == init.0;
    }
  }

  // ----- Alignment

  /** A power of two. */
  predicate Power(a: nat) {
    a == 1 || (a > 0 && a % 2 == 0 && Power(a / 2))
  }

  lemma {:induction false} BitAndSelf(a: nat)
    ensures BitAnd(a, a) == a
  {
    if a > 0 {
      BitAndSelf(a / 2);
    }
  }

  lemma {:induction false} BitAndEven(a: nat)
    requires a > 0
    ensures BitAnd(a, a - 1) == 0 <==> Power(a)
  {
    if a == 1 {
    } else if a % 2 == 0 {
      BitAndEven(a / 2);
      assert (a - 1) / 2 == a / 2 - 1 && (a - 1) % 2 == 1;
    } else {
      assert (a - 1) / 2 == a / 2 && a / 2 > 0;
      BitAndSelf(a / 2);
    }
  }

  lemma ModDouble(x: nat, b: nat)
    requires b > 0
    ensures x % (2 * b) == 2 * ((x / 2) % b) + x % 2
  {
    var half := x / 2;
    DivModIdentity(half, b);
    var q, r := half / b, half % b;
    assert q * (2 * b) == 2 * (q * b);
    QuotientUnique(x, 2 * b, q, 2 * r + x % 2);
  }

  lemma {:induction false} AndNotZero(x: nat)
    ensures AndNot(x, 0) == x
  {
    if x > 0 {
      AndNotZero(x / 2);
    }
  }

  lemma SmallMod(x: nat, a: nat)
    requires x < a
    ensures x % a == x
  {
    QuotientUnique(x, a, 0, x);
  }

  /** Clearing the low bits below a power of two rounds down to a multiple of it. */
  lemma {:induction false} AndNotRoundsDown(x: nat, a: nat)
    requires Power(a)
    ensures AndNot(x, a - 1) == x - x % a
  {
    if a == 1 {
      AndNotZero(x);
    } else if x > 0 {
      AndNotRoundsDown(x / 2, a / 2);
      assert (a - 1) / 2 == a / 2 - 1 && (a - 1) % 2 == 1;
      ModDouble(x, a / 2);
    } else {
      DivModIdentity(x, a);
      SmallMod(x, a);
    }
  }

  /** The least multiple of align at or past pos. */
  predicate LeastMultiple(d: nat, pos: nat, align: nat) {
    align > 0 && d % align == 0 && pos <= d < pos + align
  }

  lemma RoundUpIsMultiple(pos: nat, align: nat, y: nat)
    requires align > 0 && y == pos + align - 1 - (pos + align - 1) % align
    ensures LeastMultiple(y, pos, align)
  {
    var x := pos + align - 1;
    DivModIdentity(x, align);
    QuotientUnique(y, align, x / align, 0);
  }

  lemma DataOffsetIsLeast(pos: nat, align: nat)
    requires Power(align) && DataOffset(pos, align).Ok?
    ensures LeastMultiple(DataOffset(pos, align).value, pos, align)
    ensures DataOffset(pos, align).value <= pos + align - 1 <= U64_MAX
  {
    AndNotRoundsDown(pos + align - 1, align);
    RoundUpIsMultiple(pos, align, AndNot(pos + align - 1, align - 1));
  }

  // ----- Tensors

  /** The mathematical element count. */
  function Product(dims: seq<nat>): nat {
    if |dims| == 0 then 1 else Product(dims[..|dims| - 1]) * dims[|dims| - 1]
  }

  lemma ProductGrows(a: nat, b: nat, n: nat)
    requires a <= b
    ensures a * n <= b * n
  {
  }

  lemma {:induction false} ProductFits(a: nat, b: nat, limit: nat)
    requires b > 0
    ensures a > limit / b <==> a * b > limit
  {
    DivModIdentity(limit, b);
    if a > limit / b {
      ProductGap(a, limit / b, b);
    } else {
      ProductGrows(a, limit / b, b);
    }
  }

  /** The checked element count is the true one, and no partial product ever left 64 bits. */
  lemma {:induction false} ElementsExact(dims: seq<nat>)
    requires Elements(dims).Ok?
    ensures Elements(dims).value == Product(dims) && 0 < Product(dims) <= U64_MAX
  {
    if |dims| > 0 {
      var n, d := Elements(dims[..|dims| - 1]).value, dims[|dims| - 1];
      ElementsExact(dims[..|dims| - 1]);
      ProductFits(n, d, U64_MAX);
      AtLeastOne(n, d);
    }
  }

  /** The byte size a type and element count call for. */
  predicate SizeMatches(ty: nat, n: nat, nbytes: nat) {
    Layout(ty).Some? && n % Layout(ty).value.0 == 0 && nbytes == n / Layout(ty).value.0 * Layout(ty).value.1
  }

  lemma MulExact(a: nat, b: nat)
    requires Mul64(a, b).Ok?
    ensures Mul64(a, b).value == a * b <= U64_MAX
  {
    if a > 0 {
      ProductFits(b, a, U64_MAX);
      assert b * a == a * b;
    }
  }

  lemma BytesMatch(ty: nat, n: nat)
    requires TensorBytes(ty, n).Ok?
    ensures SizeMatches(ty, n, TensorBytes(ty, n).value) && TensorBytes(ty, n).value <= U64_MAX
  {
    var k := Layout(ty).value;
    MulExact(n / k.0, k.1);
  }

  /** A tensor of an accepted file: shaped, sized, and inside the file, past the header. */
  predicate GoodTensor(size: nat, dataOffset: nat, t: Tensor) {
    && 1 <= |t.dims| <= 4 && (forall i :: 0 <= i < |t.dims| ==> t.dims[i] > 0)
    && t.dims[0] % RowBlock(t.ty) == 0
    && Product(t.dims) <= U64_MAX
    && SizeMatches(t.ty, Product(t.dims), t.nbytes)
    && dataOffset <= t.offset <= U64_MAX
    && t.offset + t.nbytes <= size
  }

  predicate SameInfo(t: Tensor, x: Info, dataOffset: nat) {
    t.name == x.name && t.dims == x.dims && t.ty == x.ty && t.offset == dataOffset + x.rel
  }

  lemma OneDivides(n: nat)
    ensures n % 1 == 0
  {
  }

  lemma BuiltTensorGood(size: nat, dataOffset: nat, x: Info)
    requires GoodInfo(x) && BuildTensor(size, dataOffset, x).Ok?
    ensures GoodTensor(size, dataOffset, BuildTensor(size, dataOffset, x).value)
    ensures SameInfo(BuildTensor(size, dataOffset, x).value, x, dataOffset)
  {
    hide Product, Elements, Layout;
    ElementsExact(x.dims);
    BytesMatch(x.ty, Elements(x.dims).value);
    OneDivides(x.dims[0]);
  }

  ghost predicate DistinctNames(ts: seq<Tensor>) {
    forall i, j :: 0 <= i < j < |ts| ==> ts[i].name != ts[j].name
  }

  lemma {:induction false} BuiltTensorsGood(size: nat, dataOffset: nat, infos: seq<Info>)
    requires BuildTensors(size, dataOffset, infos).Ok? && forall i :: 0 <= i < |infos| ==> GoodInfo(infos[i])
    ensures var ts := BuildTensors(size, dataOffset, infos).value;
            && |ts| == |infos| && DistinctNames(ts)
            && (forall i :: 0 <= i < |ts| ==> GoodTensor(size, dataOffset, ts[i]))
            && (forall i :: 0 <= i < |ts| ==> SameInfo(ts[i], infos[i], dataOffset))
  {
    hide GoodTensor, GoodInfo, SameInfo, BuildTensor;
    if |infos| > 0 {
      BuiltTensorsGood(size, dataOffset, infos[..|infos| - 1]);
      BuiltTensorGood(size, dataOffset, infos[|infos| - 1]);
    }
  }

  /** tensor(name): the tensor of that name. */
  function Named(ts: seq<Tensor>, name: Bytes): Option<Tensor> {
    if |ts| == 0 then None
    else if ts[|ts| - 1].name == name then Some(ts[|ts| - 1])
    else Named(ts[..|ts| - 1], name)
  }

  lemma {:induction false} NamedFinds(ts: seq<Tensor>, i: nat)
    requires DistinctNames(ts) && i < |ts|
    ensures Named(ts, ts[i].name) == Some(ts[i])
  {
    if i < |ts| - 1 {
      NamedFinds(ts[..|ts| - 1], i);
    }
  }

  lemma {:induction false} NamedMisses(ts: seq<Tensor>, name: Bytes)
    ensures Named(ts, name).None? <==> forall i :: 0 <= i < |ts| ==> ts[i].name != name
  {
    if |ts| > 0 {
      NamedMisses(ts[..|ts| - 1], name);
    }
  }

  // ----- Accepted files

  function TensorsCost(ts: seq<Tensor>): nat {
    if |ts| == 0 then 0
    else TensorsCost(ts[..|ts| - 1]) + |ts[|ts| - 1].name| + 8 * |ts[|ts| - 1].dims|
  }

  /** Everything the parse was charged for. */
  function HeapUse(f: File): nat {
    ITEM_COST * |f.items| + ItemsCost(f.items)
    + (INFO_COST + TENSOR_COST) * |f.tensors| + TensorsCost(f.tensors)
  }

  ghost predicate Sound(file: Bytes, lim: Limits, f: File) {
    && Power(f.align) && LeastMultiple(f.dataOffset, f.headerEnd, f.align)
    && f.headerEnd <= |file| && f.dataOffset <= U64_MAX
    && (forall i :: 0 <= i < |f.tensors| ==> GoodTensor(|file|, f.dataOffset, f.tensors[i]))
    && DistinctKeys(f.items) && DistinctNames(f.tensors)
    && |f.items| <= lim.maxItems && |f.tensors| <= lim.maxTensors
    && HeapUse(f) <= lim.maxHeap
  }

  lemma {:induction false} CostsAgree(ts: seq<Tensor>, infos: seq<Info>, dataOffset: nat)
    requires |ts| == |infos| && forall i :: 0 <= i < |ts| ==> SameInfo(ts[i], infos[i], dataOffset)
    ensures TensorsCost(ts) == InfosCost(infos)
  {
    if |ts| > 0 {
      CostsAgree(ts[..|ts| - 1], infos[..|infos| - 1], dataOffset);
      assert SameInfo(ts[|ts| - 1], infos[|infos| - 1], dataOffset);
    }
  }

  lemma {:induction false} BytesMove(file: Bytes, c: Cursor, n: nat)
    requires c.off <= |file| && ReadBytes(file, c, n).Ok?
    ensures Moves(file, c, ReadBytes(file, c, n).value.1, 0)
  {
    if n > 0 {
      BytesMove(file, c, n - 1);
    }
  }

  lemma CountsMove(file: Bytes, lim: Limits)
    requires ReadCounts(file, lim).Ok?
    ensures var r := ReadCounts(file, lim).value;
            Moves(file, Cursor(0, lim.maxHeap), r.3, 0) && 2 <= r.0 <= 3 && r.1 <= lim.maxTensors && r.2 <= lim.maxItems
  {
    hide ReadBytes, LeValue;
    BytesMove(file, Cursor(0, lim.maxHeap), 4);
  }

  lemma HeadIsSound(file: Bytes, lim: Limits)
    requires ReadHead(file, lim).Ok?
    ensures var h := ReadHead(file, lim).value;
            && h.at.off <= |file|
            && h.at.heap + ITEM_COST * |h.items| + ItemsCost(h.items) + INFO_COST * |h.infos| + InfosCost(h.infos)
               == lim.maxHeap
            && |h.items| <= lim.maxItems && |h.infos| <= lim.maxTensors
            && DistinctKeys(h.items) && forall i :: 0 <= i < |h.infos| ==> GoodInfo(h.infos[i])
  {
    hide ReadCounts, ReadItems, ReadInfos, ItemsCost, InfosCost, GoodInfo, DistinctKeys;
    CountsMove(file, lim);
    var counts := ReadCounts(file, lim).value;
    var paid := ChargeEach(counts.3, counts.2, ITEM_COST).value;
    ItemsMove(file, lim, paid, counts.2);
    var items := ReadItems(file, lim, paid, counts.2).value;
    InfosMove(file, lim, ChargeEach(items.1, counts.1, INFO_COST).value, counts.1);
  }

  lemma AlignmentIsPower(items: seq<Item>)
    requires Alignment(items).Ok?
    ensures Power(Alignment(items).value)
  {
    hide Lookup, BitAnd;
    BitAndEven(Alignment(items).value);
  }

  /** Every accepted file is sound, whatever the bytes and the limits. */
  lemma AcceptedIsSound(file: Bytes, lim: Limits)
    requires Parse(file, lim).Ok?
    ensures Sound(file, lim, Parse(file, lim).value)
  {
    hide ReadHead, Alignment, DataOffset, BuildTensors, Power, LeastMultiple, GoodTensor, ItemsCost, InfosCost,
         TensorsCost, DistinctKeys, DistinctNames, GoodInfo, SameInfo;
    var head := ReadHead(file, lim).value;
    HeadIsSound(file, lim);
    AlignmentIsPower(head.items);
    var align := Alignment(head.items).value;
    DataOffsetIsLeast(head.at.off, align);
    var dataOffset := DataOffset(head.at.off, align).value;
    BuiltTensorsGood(|file|, dataOffset, head.infos);
    CostsAgree(BuildTensors(|file|, dataOffset, head.infos).value, head.infos, dataOffset);
  }

  /** Looking a tensor up by name gives the tensor of that name, and fails only for names that are not there. */
  lemma AcceptedLookup(file: Bytes, lim: Limits, name: Bytes)
    requires Parse(file, lim).Ok?
    ensures var ts := Parse(file, lim).value.tensors;
            && (forall i :: 0 <= i < |ts| && ts[i].name == name ==> Named(ts, name) == Some(ts[i]))
            && (Named(ts, name).None? <==> forall i :: 0 <= i < |ts| ==> ts[i].name != name)
  {
    hide Parse, Named, GoodTensor, ItemsCost, TensorsCost;
    AcceptedIsSound(file, lim);
    var ts := Parse(file, lim).value.tensors;
    NamedMisses(ts, name);
    forall i | 0 <= i < |ts| && ts[i].name == name
      ensures Named(ts, name) == Some(ts[i])
    {
      NamedFinds(ts, i);
    }
  }
}
