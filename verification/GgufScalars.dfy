/**
 * Every metadata type of the GGUF format, read back from its little-endian encoding, as a value of its own and as an
 * array element. Integers are in two's complement where the type is signed; floats are bit patterns.
 */
module GgufScalars {
  import opened Common
  import opened Arithmetic
  import opened Gguf
  import opened GgufWriter

  /** The number types by their codes in the format: width in bytes, signedness. */
  predicate IsNumber(ty: nat) {
    ty in {0, 1, 2, 3, 4, 5, 7, 10, 11}
  }

  function Width(ty: nat): nat {
    match ty
    case 0 => 1
    case 1 => 1
    case 2 => 2
    case 3 => 2
    case 4 => 4
    case 5 => 4
    case 7 => 1
    case 10 => 8
    case 11 => 8
    case _ => 0
  }

  /** The values of each type; 7 is the boolean, stored as one byte. */
  predicate InRange(ty: nat, v: int) {
    match ty
    case 0 => 0 <= v < 0x100
    case 1 => -0x80 <= v < 0x80
    case 2 => 0 <= v < 0x1_0000
    case 3 => -0x8000 <= v < 0x8000
    case 4 => 0 <= v < 0x1_0000_0000
    case 5 => -0x8000_0000 <= v < 0x8000_0000
    case 7 => 0 <= v < 0x100
    case 10 => 0 <= v < 0x1_0000_0000_0000_0000
    case 11 => -0x8000_0000_0000_0000 <= v < 0x8000_0000_0000_0000
    case _ => false
  }

  /** Two's complement of w bytes. */
  function Complement(v: int, w: nat): nat
    requires 0 <= v + Pow256(w)
  {
    if v < 0 then v + Pow256(w) else v
  }

  /** What the value reads as: a flag, an unsigned or a signed number. */
  function NumberData(ty: nat, v: int): Data {
    if ty == 7 then B(v != 0) else if v >= 0 && ty in {0, 2, 4, 10} then U(v) else I(v)
  }

  lemma WidthsOf(ty: nat, v: int)
    requires InRange(ty, v)
    ensures Pow256(1) == 0x100 && Pow256(2) == 0x1_0000
    ensures Pow256(4) == 0x1_0000_0000 && Pow256(8) == 0x1_0000_0000_0000_0000
    ensures IsNumber(ty) && 0 <= v + Pow256(Width(ty)) && Complement(v, Width(ty)) < Pow256(Width(ty))
  {
    Widths();
  }

  /** A number of any type comes back as itself, and the reader moves by exactly the width of the type. */
  lemma NumberBack(file: Bytes, lim: Limits, off: nat, heap: nat, ty: nat, v: int)
    requires InRange(ty, v) && 0 <= v + Pow256(Width(ty)) && Has(file, off, Le(Complement(v, Width(ty)), Width(ty)))
    ensures ReadScalar(file, lim, Cursor(off, heap), ty) == Ok((NumberData(ty, v), Cursor(off + Width(ty), heap)))
  {
    hide Le, Pow256, ReadUint, Has;
    WidthsOf(ty, v);
    UintBack(file, off, heap, Complement(v, Width(ty)), Width(ty));
  }

  /** So do the two float types, as bit patterns of four and eight bytes. */
  lemma FloatBack(file: Bytes, lim: Limits, off: nat, heap: nat, bits: nat)
    ensures bits < 0x1_0000_0000 && Has(file, off, Le(bits, 4)) ==>
              ReadScalar(file, lim, Cursor(off, heap), 6) == Ok((F(Single(bits)), Cursor(off + 4, heap)))
    ensures bits < 0x1_0000_0000_0000_0000 && Has(file, off, Le(bits, 8)) ==>
              ReadScalar(file, lim, Cursor(off, heap), 12) == Ok((F(Double(bits)), Cursor(off + 8, heap)))
  {
    hide Le, Pow256, ReadUint, Has;
    Widths();
    if bits < 0x1_0000_0000 && Has(file, off, Le(bits, 4)) {
      UintBack(file, off, heap, bits, 4);
    }
    if bits < 0x1_0000_0000_0000_0000 && Has(file, off, Le(bits, 8)) {
      UintBack(file, off, heap, bits, 8);
    }
  }

  /** Types without a value of their own are refused: arrays in arrays, and codes the format does not have. */
  lemma OtherTypesRefused(file: Bytes, lim: Limits, c: Cursor, ty: nat)
    requires !IsNumber(ty) && ty !in {6, 8, 12}
    ensures ReadScalar(file, lim, c, ty).Err?
  {
  }

  // ----- Arrays

  predicate AllInRange(ty: nat, a: seq<int>) {
    forall i :: 0 <= i < |a| ==> InRange(ty, a[i])
  }

  function NumbersBytes(ty: nat, a: seq<int>): (b: Bytes)
    requires AllInRange(ty, a)
    ensures |b| == SlotOff(|a|, Width(ty))
  {
    if |a| == 0 then []
    else
      var v := a[|a| - 1];
      WidthsOf(ty, v);
      NumbersBytes(ty, a[..|a| - 1]) + Le(Complement(v, Width(ty)), Width(ty))
  }

  /** A flag counts as 0 or 1. */
  function Widen(ty: nat, v: int): int {
    if ty == 7 && v != 0 then 1 else v
  }

  function WidenAll(ty: nat, a: seq<int>): (r: seq<int>)
    ensures |r| == |a| && forall i :: 0 <= i < |a| ==> r[i] == Widen(ty, a[i])
  {
    if |a| == 0 then [] else WidenAll(ty, a[..|a| - 1]) + [Widen(ty, a[|a| - 1])]
  }

  lemma WidenedIs(ty: nat, v: int)
    requires InRange(ty, v)
    ensures Widened(NumberData(ty, v))
         == if v < 0x8000_0000_0000_0000 then Ok(Widen(ty, v)) else Err("GGUF integer array value exceeds int64")
  {
  }

  /** Every element is a signed 64-bit integer. */
  predicate FitSigned(a: seq<int>) {
    forall i :: 0 <= i < |a| ==> a[i] < 0x8000_0000_0000_0000
  }

  lemma NoNumbers(file: Bytes, lim: Limits, off: nat, heap: nat, ty: nat)
    ensures ReadInts(file, lim, Cursor(off, heap), ty, 0)
         == Ok((WidenAll(ty, []), Cursor(off + SlotOff(0, Width(ty)), heap))) && FitSigned([])
  {
  }

  lemma FitLast(a: seq<int>)
    requires |a| > 0
    ensures FitSigned(a) <==> FitSigned(a[..|a| - 1]) && a[|a| - 1] < 0x8000_0000_0000_0000
  {
  }

  lemma RangeLast(ty: nat, a: seq<int>)
    requires |a| > 0 && AllInRange(ty, a)
    ensures AllInRange(ty, a[..|a| - 1]) && InRange(ty, a[|a| - 1])
  {
    hide InRange;
  }

  lemma BytesLast(ty: nat, a: seq<int>, init: seq<int>, v: int)
    requires |a| > 0 && init == a[..|a| - 1] && v == a[|a| - 1]
    requires AllInRange(ty, a) && AllInRange(ty, init) && 0 <= v + Pow256(Width(ty))
    ensures NumbersBytes(ty, a) == NumbersBytes(ty, init) + Le(Complement(v, Width(ty)), Width(ty))
  {
    hide Le, Pow256, InRange, AllInRange, Complement, Width, SlotOff;
  }

  lemma LastNumber(file: Bytes, off: nat, ty: nat, a: seq<int>, init: seq<int>, v: int)
    requires |a| > 0 && init == a[..|a| - 1] && v == a[|a| - 1]
    requires AllInRange(ty, a) && AllInRange(ty, init) && 0 <= v + Pow256(Width(ty))
    requires Has(file, off, NumbersBytes(ty, a))
    ensures Has(file, off, NumbersBytes(ty, init))
    ensures Has(file, off + SlotOff(|init|, Width(ty)), Le(Complement(v, Width(ty)), Width(ty)))
  {
    hide *;
    BytesLast(ty, a, init, v);
    HasSplit(file, off, NumbersBytes(ty, init), Le(Complement(v, Width(ty)), Width(ty)));
  }

  lemma OneMoreNumber(file: Bytes, lim: Limits, off: nat, heap: nat, ty: nat, init: seq<int>, v: int)
    requires InRange(ty, v)
    requires ReadScalar(file, lim, Cursor(off + SlotOff(|init|, Width(ty)), heap), ty)
          == Ok((NumberData(ty, v), Cursor(off + SlotOff(|init|, Width(ty)) + Width(ty), heap)))
    requires Widened(NumberData(ty, v))
          == if v < 0x8000_0000_0000_0000 then Ok(Widen(ty, v)) else Err("GGUF integer array value exceeds int64")
    ensures var before := ReadInts(file, lim, Cursor(off, heap), ty, |init|);
            var after := ReadInts(file, lim, Cursor(off, heap), ty, |init + [v]|);
            && (before.Err? ==> after.Err?)
            && (before == Ok((WidenAll(ty, init), Cursor(off + SlotOff(|init|, Width(ty)), heap))) ==>
                  if v < 0x8000_0000_0000_0000 then
                    after == Ok((WidenAll(ty, init + [v]), Cursor(off + SlotOff(|init + [v]|, Width(ty)), heap)))
                  else after.Err?)
  {
    hide ReadScalar, Widened, NumberData, InRange, Width;
    assert WidenAll(ty, init + [v]) == WidenAll(ty, init) + [Widen(ty, v)];
  }

  /** The elements come back widened, unless one of them, which can only be of type uint64, is no int64. */
  lemma {:induction false} NumbersBack(file: Bytes, lim: Limits, off: nat, heap: nat, ty: nat, a: seq<int>)
    requires AllInRange(ty, a) && Has(file, off, NumbersBytes(ty, a))
    ensures FitSigned(a) ==>
              ReadInts(file, lim, Cursor(off, heap), ty, |a|)
              == Ok((WidenAll(ty, a), Cursor(off + SlotOff(|a|, Width(ty)), heap)))
    ensures !FitSigned(a) ==> ReadInts(file, lim, Cursor(off, heap), ty, |a|).Err?
  {
    hide Le, Pow256, ReadScalar, Has, Widened, NumberData, InRange, Complement, Width, ReadInts, SlotOff, WidenAll,
         FitSigned, AllInRange, NumbersBytes;
    if |a| == 0 {
      NoNumbers(file, lim, off, heap, ty);
    } else {
      var init, v := a[..|a| - 1], a[|a| - 1];
      assert a == init + [v];
      RangeLast(ty, a);
      WidthsOf(ty, v);
      LastNumber(file, off, ty, a, init, v);
      FitLast(a);
      NumbersBack(file, lim, off, heap, ty, init);
      NumberBack(file, lim, off + SlotOff(|init|, Width(ty)), heap, ty, v);
      WidenedIs(ty, v);
      OneMoreNumber(file, lim, off, heap, ty, init, v);
    }
  }

  lemma WidthIsIntWidth(ty: nat)
    ensures IsNumber(ty) ==> IntWidth(ty) == Width(ty) > 0
    ensures !IsNumber(ty) ==> IntWidth(ty) == 0
  {
  }

  lemma EnoughFor(file: Bytes, off: nat, heap: nat, n: nat, w: nat)
    requires w > 0 && off + SlotOff(n, w) <= |file|
    ensures Enough(file, Cursor(off, heap), n, w)
  {
    SlotOffIsProduct(n, w);
    var room := |file| - off;
    DivModIdentity(room, w);
    if room / w < n {
      ProductGap(n, room / w, w);
    }
  }

  lemma NumberElements(file: Bytes, lim: Limits, c: Cursor, ty: nat, n: nat, paid: Cursor)
    requires IsNumber(ty) && Enough(file, c, n, Width(ty)) && ChargeEach(c, n, 8) == Ok(paid)
    ensures ReadElements(file, lim, c, ty, n)
         == var a := ReadInts(file, lim, paid, ty, n);
            if a.Err? then Err(a.error) else Ok((Ints(a.value.0), a.value.1))
  {
    hide Enough, ReadInts, ChargeEach;
    WidthIsIntWidth(ty);
  }

  /** A whole array value of any number type, its count and element type in front. */
  lemma NumberArrayBack(file: Bytes, lim: Limits, off: nat, heap: nat, ty: nat, a: seq<int>)
    requires IsNumber(ty) && AllInRange(ty, a) && (forall i :: 0 <= i < |a| ==> a[i] < 0x8000_0000_0000_0000)
    requires Has(file, off, Le(ty, 4) + Le(|a|, 8) + NumbersBytes(ty, a))
    requires |a| <= lim.maxArray && |a| < U64_LIMIT && 8 * |a| <= heap <= U64_MAX
    ensures ReadValue(file, lim, Cursor(off, heap), 9)
         == Ok((Value(9, Ints(WidenAll(ty, a))), Cursor(off + 12 + SlotOff(|a|, Width(ty)), heap - 8 * |a|)))
  {
    hide Le, ReadArray, ReadInts, ReadElements, NumbersBytes, WidenAll, SlotOff, Enough, AllInRange, Width, ChargeEach;
    WidthIsIntWidth(ty);
    ArrayBack(file, lim, off, heap, ty, |a|, NumbersBytes(ty, a));
    EnoughFor(file, off + 12, heap, |a|, Width(ty));
    ChargeFits(Cursor(off + 12, heap), |a|, 8);
    NumberElements(file, lim, Cursor(off + 12, heap), ty, |a|, Cursor(off + 12, heap - 8 * |a|));
    NumbersBack(file, lim, off + 12, heap - 8 * |a|, ty, a);
  }

  function Doubles(a: seq<nat>): (r: seq<Float>)
    ensures |r| == |a|
  {
    if |a| == 0 then [] else Doubles(a[..|a| - 1]) + [Double(a[|a| - 1])]
  }

  lemma {:induction false} DoublesBack(file: Bytes, off: nat, heap: nat, a: seq<nat>, w: nat)
    requires w == 8 && Has(file, off, UintsBytes(a, w)) && forall i :: 0 <= i < |a| ==> a[i] < U64_LIMIT
    ensures ReadFloats(file, Cursor(off, heap), false, |a|)
         == Ok((Doubles(a), Cursor(off + SlotOff(|a|, w), heap)))
  {
    hide Le, Pow256, ReadUint, Has;
    if |a| > 0 {
      Widths();
      var init, v := a[..|a| - 1], a[|a| - 1];
      HasSplit(file, off, UintsBytes(init, w), Le(v, w));
      DoublesBack(file, off, heap, init, w);
      UintBack(file, off + SlotOff(|init|, w), heap, v, w);
    }
  }

  lemma DoubleElements(file: Bytes, lim: Limits, c: Cursor, n: nat, paid: Cursor, a: seq<Float>, end: Cursor)
    requires Enough(file, c, n, 8) && ChargeEach(c, n, 8) == Ok(paid)
    requires ReadFloats(file, paid, false, n) == Ok((a, end))
    ensures ReadElements(file, lim, c, 12, n) == Ok((Floats(a), end))
  {
    hide Enough, ReadFloats, ChargeEach;
  }

  /** And an array of doubles; arrays of single floats and of strings are what the fixture writers emit. */
  lemma DoubleArrayBack(file: Bytes, lim: Limits, off: nat, heap: nat, a: seq<nat>, w: nat)
    requires w == 8 && forall i :: 0 <= i < |a| ==> a[i] < U64_LIMIT
    requires Has(file, off, Le(12, 4) + Le(|a|, 8) + UintsBytes(a, w))
    requires |a| <= lim.maxArray && |a| < U64_LIMIT && 8 * |a| <= heap <= U64_MAX
    ensures ReadValue(file, lim, Cursor(off, heap), 9)
         == Ok((Value(9, Floats(Doubles(a))), Cursor(off + 12 + SlotOff(|a|, w), heap - 8 * |a|)))
  {
    hide Le, ReadArray, ReadFloats, ReadElements, UintsBytes, Doubles, SlotOff, Enough, ChargeEach;
    ArrayBack(file, lim, off, heap, 12, |a|, UintsBytes(a, w));
    EnoughFor(file, off + 12, heap, |a|, w);
    ChargeFits(Cursor(off + 12, heap), |a|, 8);
    DoublesBack(file, off + 12, heap - 8 * |a|, a, w);
    DoubleElements(file, lim, Cursor(off + 12, heap), |a|, Cursor(off + 12, heap - 8 * |a|), Doubles(a),
                   Cursor(off + 12 + SlotOff(|a|, w), heap - 8 * |a|));
  }
}
