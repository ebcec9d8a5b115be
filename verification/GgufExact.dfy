/** Exactly what the GGUF parser refuses, check by check, and that everything it accepts keeps every limit. */
module GgufExact {
  import opened Common
  import opened Arithmetic
  import opened Gguf
  import opened GgufAccepted

  // ----- Block formats

  /** What a block of each format consists of, in bytes. */
  lemma LayoutIs(ty: nat)
    ensures Layout(0) == Some((1, 4)) && Layout(1) == Some((1, 2)) && Layout(30) == Some((1, 2))
    // 32 weights: half-precision scales and minimums, the fifth bits where there are any, packed codes
    ensures Layout(2) == Some((32, 2 + 32 / 2)) && Layout(3) == Some((32, 2 + 2 + 32 / 2))
    ensures Layout(6) == Some((32, 2 + 4 + 32 / 2)) && Layout(7) == Some((32, 2 + 2 + 4 + 32 / 2))
    ensures Layout(8) == Some((32, 2 + 32))
    // 256 weights: scales of sub-blocks, high bits, codes, half-precision scales
    ensures Layout(10) == Some((256, 256 / 16 + 256 / 4 + 2 + 2))
    ensures Layout(11) == Some((256, 256 / 8 + 256 / 4 + 12 + 2))
    ensures Layout(12) == Some((256, 2 + 2 + 12 + 256 / 2))
    ensures Layout(13) == Some((256, 2 + 2 + 12 + 256 / 8 + 256 / 2))
    ensures Layout(14) == Some((256, 256 / 2 + 256 / 4 + 256 / 16 + 2))
    // integers and double precision
    ensures Layout(24) == Some((1, 1)) && Layout(25) == Some((1, 2)) && Layout(26) == Some((1, 4))
    ensures Layout(27) == Some((1, 8)) && Layout(28) == Some((1, 8))
    ensures Layout(ty).Some? <==> ty in {0, 1, 2, 3, 6, 7, 8, 10, 11, 12, 13, 14, 24, 25, 26, 27, 28, 30}
    ensures RowBlock(ty) == if Layout(ty).Some? then Layout(ty).value.0 else 1
  {
  }

  // ----- The header

  lemma LeOfByte(b: Byte)
    ensures LeValue([b]) == b
  {
    assert [b][1..] == [];
  }

  lemma {:induction false} BytesRead(file: Bytes, c: Cursor, n: nat)
    requires c.off <= |file|
    ensures ReadBytes(file, c, n)
         == if c.off + n <= |file| then Ok((file[c.off..c.off + n], c.(off := c.off + n))) else Err("truncated GGUF")
  {
    hide LeValue;
    if n == 0 {
      assert file[c.off..c.off] == [];
    } else {
      BytesRead(file, c, n - 1);
      if c.off + n <= |file| {
        var at := c.off + n - 1;
        assert file[at..at + 1] == [file[at]];
        LeOfByte(file[at]);
        assert file[c.off..at] + [file[at]] == file[c.off..at + 1];
      }
    }
  }

  /** The header: the magic, a version the parser knows, and counts within the limits. */
  lemma CountsExactly(file: Bytes, lim: Limits)
    ensures ReadCounts(file, lim).Ok? <==>
            && |file| >= 24 && file[0..4] == [0x47, 0x47, 0x55, 0x46] && LeValue(file[4..8]) in {2, 3}
            && LeValue(file[8..16]) <= lim.maxTensors && LeValue(file[16..24]) <= lim.maxItems
    ensures ReadCounts(file, lim).Ok? ==>
              ReadCounts(file, lim).value
              == (LeValue(file[4..8]), LeValue(file[8..16]), LeValue(file[16..24]), Cursor(24, lim.maxHeap))
  {
    hide ReadBytes, LeValue;
    BytesRead(file, Cursor(0, lim.maxHeap), 4);
  }

  /** A string: its length is within the limit, its bytes are in the file, and the budget pays for them. */
  lemma StrExactly(file: Bytes, lim: Limits, c: Cursor)
    ensures ReadStr(file, lim, c).Ok? <==>
            && c.off + 8 <= |file| && LeValue(file[c.off..c.off + 8]) <= lim.maxString
            && c.off + 8 + LeValue(file[c.off..c.off + 8]) <= |file| && LeValue(file[c.off..c.off + 8]) <= c.heap
    ensures ReadStr(file, lim, c).Ok? ==>
              var n := LeValue(file[c.off..c.off + 8]);
              ReadStr(file, lim, c).value == (file[c.off + 8..c.off + 8 + n], Cursor(c.off + 8 + n, c.heap - n))
  {
    hide LeValue;
  }

  // ----- Alignment

  lemma PowerOfTwo32()
    ensures BitAnd(32, 31) == 0
  {
    assert Power(32);
    BitAndEven(32);
  }

  /** The declared alignment if it is a positive power of two, 32 if there is none, else a refusal. */
  lemma AlignmentExactly(items: seq<Item>)
    ensures var v := Lookup(items, ALIGNMENT_KEY);
            && (v.None? ==> Alignment(items) == Ok(32))
            && (v.Some? && v.value.data.U? ==>
                  (Alignment(items).Ok? <==> v.value.data.u > 0 && Power(v.value.data.u)))
            && (v.Some? && v.value.data.I? ==>
                  (Alignment(items).Ok? <==> v.value.data.i > 0 && Power(v.value.data.i)))
            && (v.Some? && !v.value.data.U? && !v.value.data.I? ==> Alignment(items).Err?)
            && (v.Some? && Alignment(items).Ok? ==>
                  v.value.data == U(Alignment(items).value) || v.value.data == I(Alignment(items).value))
  {
    hide Lookup, BitAnd, Power;
    match Lookup(items, ALIGNMENT_KEY)
    case None => PowerOfTwo32();
    case Some(v) =>
      if v.data.U? && v.data.u > 0 {
        BitAndEven(v.data.u);
      } else if v.data.I? && v.data.i > 0 {
        BitAndEven(v.data.i);
      }
  }

  /** Rounding up is refused exactly when it would leave 64 bits. */
  lemma OffsetExactly(pos: nat, align: nat)
    requires align > 0
    ensures DataOffset(pos, align).Ok? <==> pos + (align - 1) <= U64_MAX
  {
    hide AndNot;
  }

  // ----- Tensors

  lemma Grows(n: nat, d: nat)
    requires d > 0
    ensures n <= n * d
  {
    ProductGrows(1, d, n);
    assert n * d == d * n;
  }

  /** A shape is refused exactly if a dimension is zero or the element count leaves 64 bits. */
  lemma {:induction false} ElementsExactly(dims: seq<nat>)
    ensures Elements(dims).Ok? <==> (forall i :: 0 <= i < |dims| ==> dims[i] > 0) && Product(dims) <= U64_MAX
  {
    if |dims| > 0 {
      var before, d := dims[..|dims| - 1], dims[|dims| - 1];
      ElementsExactly(before);
      if Elements(before).Ok? {
        ElementsExact(before);
        if d > 0 {
          ProductFits(Product(before), d, U64_MAX);
        }
      } else if forall i :: 0 <= i < |dims| ==> dims[i] > 0 {
        assert forall i :: 0 <= i < |before| ==> before[i] == dims[i];
        Grows(Product(before), d);
      }
    }
  }

  /** A size is refused exactly for an unknown type, a partial block, or more than 64 bits of bytes. */
  lemma BytesExactly(ty: nat, n: nat)
    ensures TensorBytes(ty, n).Ok? <==>
            && Layout(ty).Some? && n % Layout(ty).value.0 == 0
            && n / Layout(ty).value.0 * Layout(ty).value.1 <= U64_MAX
  {
    if Layout(ty).Some? && n % Layout(ty).value.0 == 0 {
      var a, b := n / Layout(ty).value.0, Layout(ty).value.1;
      if a > 0 {
        ProductFits(b, a, U64_MAX);
        assert b * a == a * b;
      }
    }
  }

  lemma RowBlockPositive(ty: nat)
    ensures RowBlock(ty) > 0 && (RowBlock(ty) == 1 ==> forall n: nat :: n % RowBlock(ty) == 0)
  {
  }

  /** A tensor is refused exactly for its rows, its shape, its size, or a place outside the file. */
  lemma TensorExactly(size: nat, dataOffset: nat, x: Info)
    requires |x.dims| > 0
    ensures BuildTensor(size, dataOffset, x).Ok? <==>
            && x.dims[0] % RowBlock(x.ty) == 0
            && (forall i :: 0 <= i < |x.dims| ==> x.dims[i] > 0) && Product(x.dims) <= U64_MAX
            && Layout(x.ty).Some? && Product(x.dims) % Layout(x.ty).value.0 == 0
            && dataOffset + x.rel <= U64_MAX
            && var nbytes := Product(x.dims) / Layout(x.ty).value.0 * Layout(x.ty).value.1;
               nbytes <= U64_MAX && dataOffset + x.rel + nbytes <= size
  {
    hide Product, Elements, Layout, TensorBytes, RowBlock;
    RowBlockPositive(x.ty);
    ElementsExactly(x.dims);
    if Elements(x.dims).Ok? {
      ElementsExact(x.dims);
      BytesExactly(x.ty, Product(x.dims));
      if TensorBytes(x.ty, Product(x.dims)).Ok? {
        BytesMatch(x.ty, Product(x.dims));
      }
    }
  }

  // ----- The limits

  predicate DataWithin(lim: Limits, d: Data) {
    match d
    case S(s) => |s| <= lim.maxString
    case Ints(a) => |a| <= lim.maxArray
    case Floats(a) => |a| <= lim.maxArray
    case Strings(a) => |a| <= lim.maxArray && forall i :: 0 <= i < |a| ==> |a[i]| <= lim.maxString
    case _ => true
  }

  predicate ItemWithin(lim: Limits, x: Item) {
    |x.key| <= lim.maxString && DataWithin(lim, x.value.data)
  }

  lemma {:induction false} StrsWithin(file: Bytes, lim: Limits, c: Cursor, n: nat)
    requires ReadStrs(file, lim, c, n).Ok?
    ensures var a := ReadStrs(file, lim, c, n).value.0;
            |a| == n && forall i :: 0 <= i < |a| ==> |a[i]| <= lim.maxString
  {
    if n > 0 {
      StrsWithin(file, lim, c, n - 1);
    }
  }

  lemma {:induction false} FloatsWithin(file: Bytes, c: Cursor, single: bool, n: nat)
    requires ReadFloats(file, c, single, n).Ok?
    ensures |ReadFloats(file, c, single, n).value.0| == n
  {
    if n > 0 {
      FloatsWithin(file, c, single, n - 1);
    }
  }

  lemma {:induction false} IntsWithin(file: Bytes, lim: Limits, c: Cursor, elem: nat, n: nat)
    requires ReadInts(file, lim, c, elem, n).Ok?
    ensures |ReadInts(file, lim, c, elem, n).value.0| == n
  {
    hide ReadScalar;
    if n > 0 {
      IntsWithin(file, lim, c, elem, n - 1);
    }
  }

  lemma ElementsWithin(file: Bytes, lim: Limits, c: Cursor, elem: nat, n: nat)
    requires n <= lim.maxArray && ReadElements(file, lim, c, elem, n).Ok?
    ensures DataWithin(lim, ReadElements(file, lim, c, elem, n).value.0)
  {
    hide ReadStrs, ReadFloats, ReadInts, Enough;
    if elem == STRING {
      StrsWithin(file, lim, ChargeEach(c, n, STRING_COST).value, n);
    } else if elem == FLOAT32 || elem == FLOAT64 {
      FloatsWithin(file, ChargeEach(c, n, 8).value, elem == FLOAT32, n);
    } else {
      IntsWithin(file, lim, ChargeEach(c, n, 8).value, elem, n);
    }
  }

  lemma ValueWithin(file: Bytes, lim: Limits, c: Cursor, t: nat)
    requires ReadValue(file, lim, c, t).Ok?
    ensures DataWithin(lim, ReadValue(file, lim, c, t).value.0.data)
  {
    hide ReadElements, LeValue;
    if t == ARRAY {
      var elem := ReadUint(file, c, 4).value;
      var n := ReadUint(file, elem.1, 8).value;
      ElementsWithin(file, lim, n.1, elem.0, n.0);
    }
  }

  lemma {:induction false} ItemsWithin(file: Bytes, lim: Limits, c: Cursor, n: nat)
    requires ReadItems(file, lim, c, n).Ok?
    ensures var items := ReadItems(file, lim, c, n).value.0;
            |items| == n && forall i :: 0 <= i < |items| ==> ItemWithin(lim, items[i])
  {
    hide ReadValue, DataWithin, LeValue;
    if n > 0 {
      ItemsWithin(file, lim, c, n - 1);
      var init := ReadItems(file, lim, c, n - 1).value;
      var key := ReadStr(file, lim, init.1).value;
      var ty := ReadUint(file, key.1, 4).value;
      ValueWithin(file, lim, ty.1, ty.0);
    }
  }

  lemma {:induction false} InfosWithin(file: Bytes, lim: Limits, c: Cursor, n: nat)
    requires ReadInfos(file, lim, c, n).Ok?
    ensures var infos := ReadInfos(file, lim, c, n).value.0;
            |infos| == n && forall i :: 0 <= i < |infos| ==> |infos[i].name| <= lim.maxString
  {
    hide ReadDims, LeValue;
    if n > 0 {
      InfosWithin(file, lim, c, n - 1);
    }
  }

  /**
   * An accepted file starts with the magic and a known version, and keeps every limit: as many items and tensors as the
   * header says and the limits allow, and keys, names, strings and arrays no longer than allowed.
   */
  lemma AcceptedWithinLimits(file: Bytes, lim: Limits)
    requires Parse(file, lim).Ok?
    ensures var f := Parse(file, lim).value;
            && |file| >= 24 && file[0..4] == [0x47, 0x47, 0x55, 0x46] && f.version in {2, 3}
            && |f.tensors| == LeValue(file[8..16]) <= lim.maxTensors
            && |f.items| == LeValue(file[16..24]) <= lim.maxItems
            && (forall i :: 0 <= i < |f.items| ==> ItemWithin(lim, f.items[i]))
            && forall i :: 0 <= i < |f.tensors| ==> |f.tensors[i].name| <= lim.maxString
  {
    hide ReadCounts, ReadItems, ReadInfos, Alignment, DataOffset, BuildTensor, ItemWithin, LeValue, GoodInfo,
         DistinctKeys, ItemsCost, InfosCost, GoodTensor, DistinctNames;
    CountsExactly(file, lim);
    var counts := ReadCounts(file, lim).value;
    var paid := ChargeEach(counts.3, counts.2, ITEM_COST).value;
    ItemsWithin(file, lim, paid, counts.2);
    var items := ReadItems(file, lim, paid, counts.2).value;
    InfosWithin(file, lim, ChargeEach(items.1, counts.1, INFO_COST).value, counts.1);
    HeadIsSound(file, lim);
    var head := ReadHead(file, lim).value;
    var dataOffset := DataOffset(head.at.off, Alignment(head.items).value).value;
    BuiltTensorsGood(|file|, dataOffset, head.infos);
    var ts := Parse(file, lim).value.tensors;
    forall i | 0 <= i < |ts|
      ensures |ts[i].name| <= lim.maxString
    {
      assert SameInfo(ts[i], head.infos[i], dataOffset);
    }
  }
}
