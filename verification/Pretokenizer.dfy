/**
 * The GPT-2 pre-tokenizer: the text is cut into contractions, runs of one kind with an optional space in front, and
 * runs of spaces.
 */
module Pretokenizer {
  import opened Common
  import opened ByteStrings

  // ----- Character classes

  predicate USpace(cp: nat) {
    cp == 0x20 || cp == 0x09 || cp == 0x0a || cp == 0x0d || cp == 0x0b || cp == 0x0c || cp == 0x85 || cp == 0xa0
    || cp == 0x1680 || 0x2000 <= cp <= 0x200a || cp == 0x2028 || cp == 0x2029 || cp == 0x202f || cp == 0x205f
    || cp == 0x3000
  }

  predicate UDigit(cp: nat) {
    48 <= cp <= 57
  }

  predicate ULetter(cp: nat) {
    if cp < 128 then 65 <= cp <= 90 || 97 <= cp <= 122 else !USpace(cp)
  }

  /** The code points that count as spaces. */
  lemma SpacesAre(cp: nat)
    ensures USpace(cp) <==>
            cp in {9, 10, 11, 12, 13, 32, 133, 160, 5760, 8192, 8193, 8194, 8195, 8196, 8197, 8198, 8199, 8200, 8201,
                   8202, 8232, 8233, 8239, 8287, 12288}
  {
  }

  datatype Kind = Letter | Digit | Other

  function KindOf(cp: nat): Kind {
    if UDigit(cp) then Digit else if ULetter(cp) then Letter else Other
  }

  /** The 128 ASCII code points by kind; beyond them everything that is no space counts as a letter. */
  lemma KindsAre(cp: nat)
    ensures KindOf(cp) == Digit <==> '0' as int <= cp <= '9' as int
    ensures cp < 128 ==>
              (KindOf(cp) == Letter <==> 'A' as int <= cp <= 'Z' as int || 'a' as int <= cp <= 'z' as int)
    ensures cp >= 128 ==> KindOf(cp) == if USpace(cp) then Other else Letter
  {
  }

  /** 's 't 're 've 'm 'll 'd */
  const CONTRACTIONS: seq<Bytes> :=
      [[39, 115], [39, 116], [39, 114, 101], [39, 118, 101], [39, 109], [39, 108, 108], [39, 100]]

  /** The length of the contraction at p, or 0. */
  function ContractionFrom(text: Bytes, p: nat, i: nat): (n: nat)
    requires i <= 7
    ensures p + n <= |text| || n == 0
    decreases 7 - i
  {
    if i == 7 then 0
    else if At(text, p, CONTRACTIONS[i]) then |CONTRACTIONS[i]|
    else ContractionFrom(text, p, i + 1)
  }

  function Contraction(text: Bytes, p: nat): (n: nat)
    ensures p + n <= |text| || n == 0
  {
    ContractionFrom(text, p, 0)
  }

  // ----- Pre-tokenization

  /** The unit at q ends a run of kind k. */
  predicate EndsRun(text: Bytes, q: nat, k: Kind, contractions: bool)
    requires q < |text|
  {
    (contractions && Contraction(text, q) > 0) || USpace(UnitAt(text, q).cp) || KindOf(UnitAt(text, q).cp) != k
  }

  function RunEnd(text: Bytes, q: nat, k: Kind, contractions: bool): (e: nat)
    requires q <= |text|
    ensures q <= e <= |text|
    decreases |text| - q
  {
    if q == |text| || EndsRun(text, q, k, contractions) then q
    else RunEnd(text, q + UnitAt(text, q).len, k, contractions)
  }

  function SpaceEnd(text: Bytes, q: nat): (e: nat)
    requires q <= |text|
    ensures q <= e <= |text|
    decreases |text| - q
  {
    if q == |text| || !USpace(UnitAt(text, q).cp) then q else SpaceEnd(text, q + UnitAt(text, q).len)
  }

  function ChunkEnd(text: Bytes, p: nat): (e: nat)
    requires p < |text|
    ensures p < e <= |text|
  {
    var n := Contraction(text, p);
    var u := UnitAt(text, p);
    if n > 0 then p + n
    else if USpace(u.cp) then
      if u.cp == 0x20 && p + 1 < |text| && !USpace(UnitAt(text, p + 1).cp) then
        RunEnd(text, p + 1, KindOf(UnitAt(text, p + 1).cp), false)
      else SpaceEnd(text, p + u.len)
    else RunEnd(text, p + u.len, KindOf(u.cp), true)
  }

  function Chunks(text: Bytes, p: nat): seq<Bytes>
    requires p <= |text|
    decreases |text| - p
  {
    if p == |text| then [] else [text[p..ChunkEnd(text, p)]] + Chunks(text, ChunkEnd(text, p))
  }

  function Flatten(ss: seq<Bytes>): Bytes {
    if |ss| == 0 then [] else ss[0] + Flatten(ss[1..])
  }

  /** The chunks concatenate back to the text. */
  lemma {:induction false} ChunksFlatten(text: Bytes, p: nat)
    requires p <= |text|
    ensures Flatten(Chunks(text, p)) == text[p..]
    decreases |text| - p
  {
    if p < |text| {
      var e := ChunkEnd(text, p);
      ChunksFlatten(text, e);
      var rest := Chunks(text, e);
      assert Chunks(text, p)[1..] == rest;
      assert text[p..] == text[p..e] + text[e..];
    }
  }

  /** A run is maximal: every unit inside it continues the run, and the unit after it does not. */
  lemma {:induction false} RunIsMaximal(text: Bytes, q: nat, k: Kind, contractions: bool)
    requires q <= |text|
    ensures var e := RunEnd(text, q, k, contractions);
            && Boundary(text, q, e)
            && (e < |text| ==> EndsRun(text, e, k, contractions))
            && forall b :: q <= b < e && Boundary(text, q, b) ==> !EndsRun(text, b, k, contractions)
    decreases |text| - q
  {
    hide EndsRun;
    if q < |text| && !EndsRun(text, q, k, contractions) {
      var n := q + UnitAt(text, q).len;
      RunIsMaximal(text, n, k, contractions);
      var e := RunEnd(text, q, k, contractions);
      forall b | q <= b < e && Boundary(text, q, b)
        ensures !EndsRun(text, b, k, contractions)
      {
        if b != q {
          assert Boundary(text, n, b);
        }
      }
    }
  }

  /** Space runs are maximal too. */
  lemma {:induction false} SpacesAreMaximal(text: Bytes, q: nat)
    requires q <= |text|
    ensures var e := SpaceEnd(text, q);
            && Boundary(text, q, e)
            && (e < |text| ==> !USpace(UnitAt(text, e).cp))
            && forall b :: q <= b < e && Boundary(text, q, b) ==> USpace(UnitAt(text, b).cp)
    decreases |text| - q
  {
    hide UnitAt, USpace;
    if q < |text| && USpace(UnitAt(text, q).cp) {
      var n := q + UnitAt(text, q).len;
      SpacesAreMaximal(text, n);
      forall b | q <= b < SpaceEnd(text, q) && Boundary(text, q, b)
        ensures USpace(UnitAt(text, b).cp)
      {
        if b != q {
          assert Boundary(text, n, b);
        }
      }
    }
  }

  // ----- What a chunk is

  /** The seven contractions, as bytes. */
  predicate IsContraction(x: Bytes) {
    x in {[39, 115], [39, 116], [39, 114, 101], [39, 118, 101], [39, 109], [39, 108, 108], [39, 100]}
  }

  ghost predicate StartsContraction(text: Bytes, p: nat) {
    exists e :: p < e <= |text| && IsContraction(text[p..e])
  }

  /** The unit at p is no space and of kind k. */
  predicate Solid(text: Bytes, p: nat, k: Kind)
    requires p < |text|
  {
    !USpace(UnitAt(text, p).cp) && KindOf(UnitAt(text, p).cp) == k
  }

  /** The units from p to e are all of kind k, and the unit after them is not. */
  ghost predicate SolidRun(text: Bytes, p: nat, e: nat, k: Kind) {
    && p < e <= |text| && Boundary(text, p, e)
    && forall b :: p <= b < e && Boundary(text, p, b) ==> Solid(text, b, k)
  }

  /** A word: units of one kind; it ends before a space, another kind, or a contraction, and holds no contraction. */
  ghost predicate IsWord(text: Bytes, p: nat, e: nat) {
    p < |text| && !StartsContraction(text, p)
    && exists k ::
         && SolidRun(text, p, e, k)
         && (forall b :: p < b < e && Boundary(text, p, b) ==> !StartsContraction(text, b))
         && (e < |text| ==> StartsContraction(text, e) || !Solid(text, e, k))
  }

  /** All the units of one kind from q on, whatever contractions they hold. */
  ghost predicate IsWholeRun(text: Bytes, q: nat, e: nat) {
    exists k :: SolidRun(text, q, e, k) && (e < |text| ==> !Solid(text, e, k))
  }

  /**
   * A word with its space: contractions do not end it. The space is one byte, but the test for it is the code point's,
   * so an overlong encoding of 0x20 counts too, and then its second byte begins the word.
   */
  ghost predicate IsSpacedWord(text: Bytes, p: nat, e: nat) {
    p + 1 < |text| && UnitAt(text, p).cp == 32 && IsWholeRun(text, p + 1, e)
  }

  /** Spaces up to the next unit that is none; a single 0x20 is never cut off from the word behind it. */
  ghost predicate IsGap(text: Bytes, p: nat, e: nat) {
    && p < e <= |text| && Boundary(text, p, e)
    && (forall b :: p <= b < e && Boundary(text, p, b) ==> USpace(UnitAt(text, b).cp))
    && (e < |text| ==> !USpace(UnitAt(text, e).cp))
    && (text[p..e] == [32] ==> e == |text|)
  }

  ghost predicate IsChunk(text: Bytes, p: nat, e: nat) {
    p < e <= |text|
    && (IsContraction(text[p..e]) || IsWord(text, p, e) || IsSpacedWord(text, p, e) || IsGap(text, p, e))
  }

  /** The chunks are the text cut at the positions cuts. */
  ghost predicate CutInto(text: Bytes, from: nat, chunks: seq<Bytes>, cuts: seq<nat>) {
    && |cuts| == |chunks| + 1 && cuts[0] == from && cuts[|chunks|] == |text|
    && forall i :: 0 <= i < |chunks| ==> IsChunk(text, cuts[i], cuts[i + 1]) && chunks[i] == text[cuts[i]..cuts[i + 1]]
  }

  lemma {:induction false} ContractionFound(text: Bytes, p: nat, i: nat)
    requires i <= 7
    ensures var n := ContractionFrom(text, p, i);
            if n == 0 then forall j :: i <= j < 7 ==> !At(text, p, CONTRACTIONS[j])
            else exists j :: i <= j < 7 && At(text, p, CONTRACTIONS[j]) && |CONTRACTIONS[j]| == n
    decreases 7 - i
  {
    if i < 7 && !At(text, p, CONTRACTIONS[i]) {
      ContractionFound(text, p, i + 1);
    }
  }

  lemma ContractionsAre(x: Bytes)
    ensures |CONTRACTIONS| == 7
    ensures IsContraction(x) <==> exists j :: 0 <= j < 7 && CONTRACTIONS[j] == x
  {
    assert CONTRACTIONS[0] == [39, 115] && CONTRACTIONS[1] == [39, 116] && CONTRACTIONS[2] == [39, 114, 101];
    assert CONTRACTIONS[3] == [39, 118, 101] && CONTRACTIONS[4] == [39, 109] && CONTRACTIONS[5] == [39, 108, 108];
    assert CONTRACTIONS[6] == [39, 100];
  }

  /** The contraction test finds a contraction exactly when one starts there. */
  lemma ContractionIs(text: Bytes, p: nat)
    ensures var n := Contraction(text, p);
            && (n > 0 <==> StartsContraction(text, p))
            && (n > 0 ==> p + n <= |text| && IsContraction(text[p..p + n]))
  {
    hide IsContraction, CONTRACTIONS, ContractionFrom;
    ContractionsAre([]);
    ContractionFound(text, p, 0);
    forall e | p < e <= |text| && IsContraction(text[p..e])
      ensures Contraction(text, p) > 0
    {
      ContractionsAre(text[p..e]);
      var j :| 0 <= j < 7 && CONTRACTIONS[j] == text[p..e];
      assert At(text, p, CONTRACTIONS[j]);
    }
    var n := Contraction(text, p);
    if n > 0 {
      var j :| 0 <= j < 7 && At(text, p, CONTRACTIONS[j]) && |CONTRACTIONS[j]| == n;
      ContractionsAre(text[p..p + n]);
    }
  }

  lemma WordIs(text: Bytes, p: nat)
    requires p < |text| && Contraction(text, p) == 0 && !USpace(UnitAt(text, p).cp)
    ensures IsWord(text, p, ChunkEnd(text, p))
  {
    hide UnitAt, USpace, KindOf, Contraction, RunEnd;
    ContractionIs(text, p);
    var n, k := p + UnitAt(text, p).len, KindOf(UnitAt(text, p).cp);
    var e := ChunkEnd(text, p);
    RunIsMaximal(text, n, k, true);
    assert Boundary(text, p, e);
    forall b | p <= b < e && Boundary(text, p, b)
      ensures Solid(text, b, k) && (p < b ==> !StartsContraction(text, b))
    {
      if p < b {
        assert Boundary(text, n, b);
        ContractionIs(text, b);
      }
    }
    if e < |text| {
      ContractionIs(text, e);
    }
    assert SolidRun(text, p, e, k);
  }

  lemma WholeRunIs(text: Bytes, q: nat)
    requires q < |text| && !USpace(UnitAt(text, q).cp)
    ensures IsWholeRun(text, q, RunEnd(text, q, KindOf(UnitAt(text, q).cp), false))
  {
    hide UnitAt, USpace, KindOf;
    var k := KindOf(UnitAt(text, q).cp);
    var e := RunEnd(text, q, k, false);
    RunIsMaximal(text, q, k, false);
    assert !EndsRun(text, q, k, false);
    assert SolidRun(text, q, e, k);
  }

  lemma SpacedWordIs(text: Bytes, p: nat)
    requires p + 1 < |text| && Contraction(text, p) == 0 && USpace(UnitAt(text, p).cp) && UnitAt(text, p).cp == 0x20
    requires !USpace(UnitAt(text, p + 1).cp)
    ensures IsSpacedWord(text, p, ChunkEnd(text, p))
  {
    hide UnitAt, USpace, KindOf, Contraction;
    WholeRunIs(text, p + 1);
  }

  lemma GapIs(text: Bytes, p: nat)
    requires p < |text| && Contraction(text, p) == 0 && USpace(UnitAt(text, p).cp)
    requires !(UnitAt(text, p).cp == 0x20 && p + 1 < |text| && !USpace(UnitAt(text, p + 1).cp))
    requires text[p] == 32 ==> UnitAt(text, p).cp == 0x20
    ensures IsGap(text, p, ChunkEnd(text, p))
  {
    hide UnitAt, USpace, Contraction, SpaceEnd;
    var n := p + UnitAt(text, p).len;
    var e := ChunkEnd(text, p);
    SpacesAreMaximal(text, n);
    assert Boundary(text, p, e);
    forall b | p <= b < e && Boundary(text, p, b)
      ensures USpace(UnitAt(text, b).cp)
    {
      if p < b {
        assert Boundary(text, n, b);
      }
    }
    assert text[p..e] == [32] ==> text[p] == 32 && e == p + 1;
  }

  lemma AsciiSpace(text: Bytes, p: nat)
    requires p < |text|
    ensures UnitAt(text, p).cp == 0x20 && UnitAt(text, p).len == 1 <==> text[p] == 32
    ensures text[p] == 32 ==> USpace(UnitAt(text, p).cp)
  {
  }

  /** Where a chunk ends makes it one of the four kinds. */
  lemma ChunkIs(text: Bytes, p: nat)
    requires p < |text|
    ensures IsChunk(text, p, ChunkEnd(text, p))
  {
    hide UnitAt, USpace, IsWord, IsSpacedWord, IsGap, Contraction, RunEnd, SpaceEnd;
    var n := Contraction(text, p);
    AsciiSpace(text, p);
    if n > 0 {
      ContractionIs(text, p);
    } else if !USpace(UnitAt(text, p).cp) {
      WordIs(text, p);
    } else if UnitAt(text, p).cp == 0x20 && p + 1 < |text| && !USpace(UnitAt(text, p + 1).cp) {
      SpacedWordIs(text, p);
    } else {
      GapIs(text, p);
    }
  }

  /** The chunks cut the whole text, each of them one of the four kinds. */
  lemma {:induction false} ChunksAre(text: Bytes, p: nat) returns (cuts: seq<nat>)
    requires p <= |text|
    ensures CutInto(text, p, Chunks(text, p), cuts)
    decreases |text| - p
  {
    hide IsChunk, ChunkEnd;
    if p == |text| {
      return [p];
    }
    var e := ChunkEnd(text, p);
    ChunkIs(text, p);
    var rest := ChunksAre(text, e);
    cuts := [p] + rest;
  }

  method ScanRun(text: Bytes, from: nat, k: Kind, contractions: bool) returns (q: nat)
    requires from <= |text|
    ensures q == RunEnd(text, from, k, contractions)
  {
    hide UnitAt;
    q := from;
    while q < |text|
      invariant from <= q <= |text|
      invariant RunEnd(text, q, k, contractions) == RunEnd(text, from, k, contractions)
    {
      if contractions && Contraction(text, q) > 0 {
        return;
      }
      var u := UnitAt(text, q);
      if USpace(u.cp) || KindOf(u.cp) != k {
        return;
      }
      q := q + u.len;
    }
  }

  method ScanSpaces(text: Bytes, from: nat) returns (q: nat)
    requires from <= |text|
    ensures q == SpaceEnd(text, from)
  {
    q := from;
    while q < |text|
      invariant from <= q <= |text|
      invariant SpaceEnd(text, q) == SpaceEnd(text, from)
    {
      var u := UnitAt(text, q);
      if !USpace(u.cp) {
        return;
      }
      q := q + u.len;
    }
  }

  method FindChunkEnd(text: Bytes, p: nat) returns (end: nat)
    requires p < |text|
    ensures end == ChunkEnd(text, p)
  {
    var n := Contraction(text, p);
    if n > 0 {
      return p + n;
    }
    var u := UnitAt(text, p);
    if USpace(u.cp) {
      if u.cp == 0x20 && p + 1 < |text| {
        var nx := UnitAt(text, p + 1);
        if !USpace(nx.cp) {
          end := ScanRun(text, p + 1, KindOf(nx.cp), false);
          return;
        }
      }
      end := ScanSpaces(text, p + u.len);
      return;
    }
    end := ScanRun(text, p + u.len, KindOf(u.cp), true);
  }

  lemma ChunksStep(out: seq<Bytes>, text: Bytes, p: nat)
    requires p < |text|
    ensures out + Chunks(text, p) == (out + [text[p..ChunkEnd(text, p)]]) + Chunks(text, ChunkEnd(text, p))
  {
  }

  method Pretokenize(text: Bytes) returns (out: seq<Bytes>)
    ensures out == Chunks(text, 0)
    ensures exists cuts :: CutInto(text, 0, out, cuts)
    ensures Flatten(out) == text
  {
    out := [];
    var p := 0;
    while p < |text|
      invariant 0 <= p <= |text|
      invariant out + Chunks(text, p) == Chunks(text, 0)
    {
      ChunksStep(out, text, p);
      var end := FindChunkEnd(text, p);
      out := out + [text[p..end]];
      p := end;
    }
    ChunksFlatten(text, 0);
    ghost var cuts := ChunksAre(text, 0);
  }
}
