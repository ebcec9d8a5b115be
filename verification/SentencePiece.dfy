/**
 * SentencePiece encoding: mark spaces, split into units, merge, look pieces up with byte fallback.
 * The last section proves which texts survive encode followed by decode.
 */
module SentencePiece {
  import opened Common
  import opened ByteStrings
  import opened Tokenizer
  import opened SentencePieceMerge

  /** The score of a vocabulary piece. */
  function Scorer(t: Tokenizer): Bytes -> Option<real> {
    x => if x in t.tokenToId && t.tokenToId[x] < |t.scores| then Some(t.scores[t.tokenToId[x]]) else None
  }

  /** The units of s from p on, as segments. */
  function UnitSegs(s: Bytes, p: nat): seq<Seg>
    decreases |s| - p
  {
    if p >= |s| then [] else [Seg(p, UnitAt(s, p).len)] + UnitSegs(s, p + UnitAt(s, p).len)
  }

  lemma {:induction false} UnitSegsTile(s: Bytes, p: nat)
    requires p <= |s|
    ensures var g := UnitSegs(s, p);
            && (forall j :: 0 <= j < |g| ==> g[j].len > 0 && g[j].off + g[j].len <= |s|)
            && (forall j :: 0 <= j < |g| - 1 ==> g[j].off + g[j].len == g[j + 1].off)
            && (|g| == 0 <==> p == |s|)
            && (|g| > 0 ==> g[0].off == p && g[|g| - 1].off + g[|g| - 1].len == |s|)
    decreases |s| - p
  {
    if p < |s| {
      UnitSegsTile(s, p + UnitAt(s, p).len);
    }
  }

  function Prefixed(t: Tokenizer, text: Bytes): Bytes {
    if t.addSpacePrefix then MARKER + Mark(text) else Mark(text)
  }

  /** Byte fallback: one token per byte. */
  function ByteIds(t: Tokenizer, x: Bytes): Result<seq<int>> {
    if |x| == 0 then Ok([])
    else
      var ids :- ByteIds(t, x[..|x| - 1]);
      var b := x[|x| - 1];
      if b in t.byteTokenId then Ok(ids + [t.byteTokenId[b]])
      else if t.unk >= 0 then Ok(ids + [t.unk])
      else Err("SentencePiece byte fallback token missing")
  }

  function SegIds(t: Tokenizer, x: Bytes): Result<seq<int>> {
    if x in t.tokenToId then Ok([t.tokenToId[x]]) else ByteIds(t, x)
  }

  /** The ids of the first n segments. */
  function AllIds(t: Tokenizer, s: Bytes, segs: seq<Seg>, n: nat): Result<seq<int>>
    requires n <= |segs| && forall j :: 0 <= j < |segs| ==> segs[j].off + segs[j].len <= |s|
  {
    if n == 0 then Ok([])
    else
      var ids :- AllIds(t, s, segs, n - 1);
      var more :- SegIds(t, Text(s, segs[n - 1]));
      Ok(ids + more)
  }

  ghost function FinalSegs(t: Tokenizer, s: Bytes): (r: seq<Seg>)
    ensures Tiles(s, r)
  {
    UnitSegsTile(s, 0);
    NaiveMerge(s, Scorer(t), UnitSegs(s, 0))
  }

  /** What encoding returns: the ids of the naive segmentation of the marked text. */
  ghost function EncodeSpec(t: Tokenizer, text: Bytes): Result<seq<int>> {
    if |text| == 0 then Ok([])
    else
      var s := Prefixed(t, text);
      var segs := FinalSegs(t, s);
      AllIds(t, s, segs, |segs|)
  }

  // ----- The implementation

  function FreshSymbol(g: Seg, i: nat, n: nat): Symbol {
    Symbol(i - 1, if i + 1 < n then i + 1 else -1, g.off, g.len)
  }

  predicate FreshAt(s: Bytes, symbols: seq<Symbol>, i: nat)
    requires i < |symbols| == |UnitSegs(s, 0)|
  {
    symbols[i] == FreshSymbol(UnitSegs(s, 0)[i], i, |symbols|)
  }

  lemma FreshLinks(s: Bytes, symbols: seq<Symbol>)
    requires |symbols| == |UnitSegs(s, 0)|
    requires forall i :: 0 <= i < |symbols| ==> FreshAt(s, symbols, i)
    ensures Chain(symbols, Identity(|symbols|))
    ensures forall i :: 0 <= i < |symbols| ==> UnitSegs(s, 0)[i] == Seg(symbols[i].off, symbols[i].len)
  {
    UnitSegsTile(s, 0);
    var live := Identity(|symbols|);
    forall j | 0 <= j < |live|
      ensures LinkedAt(symbols, live, j) && UnitSegs(s, 0)[j] == Seg(symbols[j].off, symbols[j].len)
    {
      assert FreshAt(s, symbols, j);
    }
  }

  /** Symbols numbered in order and linked to their neighbours are a chain over the units. */
  lemma FreshChain(s: Bytes, symbols: seq<Symbol>)
    requires |symbols| == |UnitSegs(s, 0)|
    requires forall i :: 0 <= i < |symbols| ==> FreshAt(s, symbols, i)
    ensures Linked(s, symbols, Identity(|symbols|))
    ensures Segments(symbols, Identity(|symbols|)) == UnitSegs(s, 0)
  {
    UnitSegsTile(s, 0);
    FreshLinks(s, symbols);
    assert Segments(symbols, Identity(|symbols|)) == UnitSegs(s, 0);
  }

  lemma UnitSegsNext(s: Bytes, k: nat, off: nat)
    requires off < |s| && k <= |UnitSegs(s, 0)| && UnitSegs(s, 0)[k..] == UnitSegs(s, off)
    ensures var n := UnitAt(s, off).len;
            && k < |UnitSegs(s, 0)| && UnitSegs(s, 0)[k] == Seg(off, n)
            && UnitSegs(s, 0)[k + 1..] == UnitSegs(s, off + n)
            && (off + n < |s| <==> k + 1 < |UnitSegs(s, 0)|)
  {
    var g := UnitSegs(s, 0);
    assert g[k..][0] == g[k] && g[k..][1..] == g[k + 1..];
    assert |UnitSegs(s, off)| > 0;
    UnitSegsTile(s, off + UnitAt(s, off).len);
  }

  /** Splits the text into linked symbols, one per unit. */
  method SplitUnits(s: Bytes) returns (symbols: seq<Symbol>)
    ensures Linked(s, symbols, Identity(|symbols|))
    ensures Segments(symbols, Identity(|symbols|)) == UnitSegs(s, 0)
  {
    symbols := [];
    var off := 0;
    while off < |s|
      invariant 0 <= off <= |s| && |symbols| <= |UnitSegs(s, 0)|
      invariant UnitSegs(s, 0)[|symbols|..] == UnitSegs(s, off)
      invariant forall i :: 0 <= i < |symbols| ==> symbols[i] == FreshSymbol(UnitSegs(s, 0)[i], i, |UnitSegs(s, 0)|)
    {
      UnitSegsNext(s, |symbols|, off);
      var u := UnitAt(s, off);
      var idx := |symbols|;
      symbols := symbols + [Symbol(idx - 1, if off + u.len < |s| then idx + 1 else -1, off, u.len)];
      off := off + u.len;
    }
    assert |symbols| == |UnitSegs(s, 0)|;
    assert forall i :: 0 <= i < |symbols| ==> FreshAt(s, symbols, i);
    FreshChain(s, symbols);
  }

  /** Once the fallback fails it stays failed. */
  lemma {:induction false} FallbackFails(t: Tokenizer, x: Bytes, n: nat)
    requires n <= |x| && ByteIds(t, x[..n]).Err?
    ensures ByteIds(t, x) == ByteIds(t, x[..n])
    decreases |x|
  {
    if n == |x| {
      assert x[..n] == x;
    } else {
      assert x[..|x| - 1][..n] == x[..n];
      FallbackFails(t, x[..|x| - 1], n);
    }
  }

  method EmitBytes(t: Tokenizer, x: Bytes) returns (r: Result<seq<int>>)
    ensures r == ByteIds(t, x)
  {
    var ids: seq<int> := [];
    for j := 0 to |x|
      invariant ByteIds(t, x[..j]) == Ok(ids)
    {
      var b := x[j];
      assert x[..j + 1][..j] == x[..j];
      if b in t.byteTokenId {
        ids := ids + [t.byteTokenId[b]];
      } else if t.unk >= 0 {
        ids := ids + [t.unk];
      } else {
        FallbackFails(t, x, j + 1);
        return Err("SentencePiece byte fallback token missing");
      }
    }
    assert x[..|x|] == x;
    return Ok(ids);
  }

  lemma {:induction false} AllIdsFail(t: Tokenizer, s: Bytes, segs: seq<Seg>, n: nat, m: nat)
    requires n <= m <= |segs| && forall j :: 0 <= j < |segs| ==> segs[j].off + segs[j].len <= |s|
    requires AllIds(t, s, segs, n).Err?
    ensures AllIds(t, s, segs, m) == AllIds(t, s, segs, n)
  {
    if n < m {
      AllIdsFail(t, s, segs, n, m - 1);
    }
  }

  method EmitSegment(t: Tokenizer, x: Bytes) returns (r: Result<seq<int>>)
    ensures r == SegIds(t, x)
  {
    if x in t.tokenToId {
      return Ok([t.tokenToId[x]]);
    }
    r := EmitBytes(t, x);
  }

  /** Where a walk along the next links stands after j steps. */
  ghost function Cursor(live: seq<nat>, j: nat): int {
    if j < |live| then live[j] else -1
  }

  lemma CursorStep(s: Bytes, symbols: seq<Symbol>, live: seq<nat>, j: nat)
    requires Linked(s, symbols, live) && j < |live|
    ensures live[j] < |symbols| && symbols[live[j]].next == Cursor(live, j + 1)
    ensures Segments(symbols, live)[j] == Seg(symbols[live[j]].off, symbols[live[j]].len)
    ensures symbols[live[j]].off + symbols[live[j]].len <= |s|
  {
    assert LinkedAt(symbols, live, j);
    assert Segments(symbols, live)[j].off + Segments(symbols, live)[j].len <= |s|;
  }

  lemma AllIdsNext(t: Tokenizer, s: Bytes, segs: seq<Seg>, j: nat, ids: seq<int>, more: Result<seq<int>>)
    requires j < |segs| && forall k :: 0 <= k < |segs| ==> segs[k].off + segs[k].len <= |s|
    requires AllIds(t, s, segs, j) == Ok(ids) && more == SegIds(t, Text(s, segs[j]))
    ensures AllIds(t, s, segs, j + 1) == if more.Ok? then Ok(ids + more.value) else more
  {
  }

  lemma NoIds(t: Tokenizer, s: Bytes, segs: seq<Seg>)
    requires forall k :: 0 <= k < |segs| ==> segs[k].off + segs[k].len <= |s|
    ensures AllIds(t, s, segs, 0) == Ok([])
  {
  }

  /** Where the chain begins, and that its segments lie in the text. */
  lemma ChainStart(s: Bytes, symbols: seq<Symbol>, live: seq<nat>)
    requires Linked(s, symbols, live)
    ensures Cursor(live, 0) == if |symbols| == 0 then -1 else 0
    ensures |Segments(symbols, live)| == |live|
    ensures forall k :: 0 <= k < |live| ==> Segments(symbols, live)[k].off + Segments(symbols, live)[k].len <= |s|
  {
  }

  /** Follows the next links from symbol 0 and looks every segment up. */
  method EmitChain(t: Tokenizer, s: Bytes, symbols: seq<Symbol>, ghost live: seq<nat>, ghost segs: seq<Seg>)
    returns (r: Result<seq<int>>)
    requires Linked(s, symbols, live) && segs == Segments(symbols, live)
    ensures r == AllIds(t, s, segs, |segs|)
  {
    hide SegIds, AllIds, Linked, Segments;
    ChainStart(s, symbols, live);
    NoIds(t, s, segs);
    var ids: seq<int> := [];
    var i := if |symbols| == 0 then -1 else 0;
    ghost var j := 0;
    while i != -1
      invariant 0 <= j <= |segs| && i == Cursor(live, j)
      invariant AllIds(t, s, segs, j) == Ok(ids)
      decreases |segs| - j
    {
      CursorStep(s, symbols, live, j);
      var sym := symbols[i];
      var more := EmitSegment(t, s[sym.off..sym.off + sym.len]);
      AllIdsNext(t, s, segs, j, ids, more);
      if more.Err? {
        AllIdsFail(t, s, segs, j + 1, |segs|);
        return more;
      }
      ids := ids + more.value;
      i := sym.next;
      j := j + 1;
    }
    return Ok(ids);
  }

  method Encode(t: Tokenizer, text: Bytes) returns (r: Result<seq<int>>)
    ensures r == EncodeSpec(t, text)
  {
    if |text| == 0 {
      return Ok([]);
    }
    var s := ReplaceAll(text, SPACE, MARKER);
    if t.addSpacePrefix {
      s := MARKER + s;
    }
    var initial := SplitUnits(s);
    var symbols := LazyMerge(s, Scorer(t), initial);
    ghost var live :|
      && Linked(s, symbols, live)
      && Segments(symbols, live) == NaiveMerge(s, Scorer(t), Segments(initial, Identity(|initial|)));
    r := EmitChain(t, s, symbols, live, Segments(symbols, live));
  }

  // ----- Encode then decode

  /** Segments start where the unit scan stops, so none of them cuts a marker. */
  ghost predicate Aligned(s: Bytes, segs: seq<Seg>) {
    forall j :: 0 <= j < |segs| ==> Boundary(s, 0, segs[j].off)
  }

  /** A segment is a single unit of the text unless the vocabulary has it as a piece. */
  ghost predicate UnitOrPiece(t: Tokenizer, s: Bytes, g: Seg) {
    && g.off < |s| && g.off + g.len <= |s|
    && (g.len == UnitAt(s, g.off).len || Text(s, g) in t.tokenToId)
  }

  ghost predicate AllUnitOrPiece(t: Tokenizer, s: Bytes, segs: seq<Seg>) {
    forall j :: 0 <= j < |segs| ==> UnitOrPiece(t, s, segs[j])
  }

  lemma {:induction false} UnitSegsAligned(t: Tokenizer, s: Bytes, p: nat)
    requires p <= |s| && Boundary(s, 0, p)
    ensures Aligned(s, UnitSegs(s, p)) && AllUnitOrPiece(t, s, UnitSegs(s, p))
    decreases |s| - p
  {
    if p < |s| {
      BoundaryStep(s, 0, p);
      UnitSegsAligned(t, s, p + UnitAt(s, p).len);
    }
  }

  lemma MergeOneKeeps(t: Tokenizer, s: Bytes, segs: seq<Seg>, i: nat)
    requires Tiles(s, segs) && Aligned(s, segs) && AllUnitOrPiece(t, s, segs)
    requires i + 1 < |segs| && PairScore(s, Scorer(t), segs, i).Some?
    ensures Aligned(s, Merge(segs, i)) && AllUnitOrPiece(t, s, Merge(segs, i))
  {
    var m := Merge(segs, i);
    forall j | 0 <= j < |m|
      ensures Boundary(s, 0, m[j].off) && UnitOrPiece(t, s, m[j])
    {
      if j > i {
        assert m[j] == segs[j + 1];
      } else if j == i {
        assert m[j].off == segs[i].off;
        assert Text(s, m[j]) in t.tokenToId;
      } else {
        assert m[j] == segs[j];
      }
    }
  }

  /** Merging keeps a partition aligned to units, and only ever creates vocabulary pieces. */
  lemma {:induction false} MergeKeeps(t: Tokenizer, s: Bytes, segs: seq<Seg>)
    requires Tiles(s, segs) && Aligned(s, segs) && AllUnitOrPiece(t, s, segs)
    ensures Aligned(s, NaiveMerge(s, Scorer(t), segs)) && AllUnitOrPiece(t, s, NaiveMerge(s, Scorer(t), segs))
    decreases |segs|
  {
    match BestPair(s, Scorer(t), segs, PairCount(segs))
    case None =>
    case Some(i) =>
      MergeTiles(s, segs, i);
      MergeOneKeeps(t, s, segs, i);
      MergeKeeps(t, s, Merge(segs, i));
  }

  /** What the vocabulary must offer: a plain marker piece, all byte pieces, and no marker inside control pieces. */
  ghost predicate RoundTripVocabulary(t: Tokenizer) {
    && WellBuilt(t) && IsSentencePiece(t)
    && MARKER in t.tokenToId && t.types[t.tokenToId[MARKER]] != CONTROL
    && (forall b :: 0 <= b < 256 ==> b in t.byteTokenId)
    && (forall i :: 0 <= i < |t.tokens| && t.types[i] == CONTROL ==> !Contains(t.tokens[i], MARKER))
  }

  /** The piece decodes to a single byte rather than to its own text. */
  predicate IsBytePiece(t: Tokenizer, x: Bytes) {
    x in t.tokenToId && t.tokenToId[x] < |t.types| && t.types[t.tokenToId[x]] == BYTE && SpellsByte(x)
  }

  ghost predicate ByteDecodes(t: Tokenizer, b: Byte) {
    |t.types| == |t.tokens| && b in t.byteTokenId && DecodePiece(t, t.byteTokenId[b]) == [b]
  }

  lemma ByteTokensDecode(t: Tokenizer)
    requires RoundTripVocabulary(t)
    ensures forall b: Byte :: ByteDecodes(t, b)
  {
    forall b: Byte
      ensures ByteDecodes(t, b)
    {
      assert IsByteToken(t, t.byteTokenId[b], b);
    }
  }

  lemma DecodeSnoc(t: Tokenizer, ids: seq<int>, id: int)
    requires |t.types| == |t.tokens|
    ensures DecodeAll(t, ids + [id]) == DecodeAll(t, ids) + DecodePiece(t, id)
  {
    assert (ids + [id])[..|ids|] == ids;
  }

  lemma ByteIdsSnoc(t: Tokenizer, x: Bytes)
    requires |x| > 0 && ByteIds(t, x[..|x| - 1]).Ok? && x[|x| - 1] in t.byteTokenId
    ensures ByteIds(t, x) == Ok(ByteIds(t, x[..|x| - 1]).value + [t.byteTokenId[x[|x| - 1]]])
  {
  }

  lemma NoBytesDecode(t: Tokenizer)
    requires |t.types| == |t.tokens|
    ensures ByteIds(t, []) == Ok([]) && DecodeAll(t, []) == []
  {
  }

  lemma {:induction false} ByteIdsDecode(t: Tokenizer, x: Bytes)
    requires |t.types| == |t.tokens| && forall b: Byte :: ByteDecodes(t, b)
    ensures ByteIds(t, x).Ok? && DecodeAll(t, ByteIds(t, x).value) == x
    decreases |x|
  {
    hide ByteIds, DecodeAll, DecodePiece;
    if |x| == 0 {
      NoBytesDecode(t);
    } else {
      var y, b := x[..|x| - 1], x[|x| - 1];
      ByteIdsDecode(t, y);
      assert ByteDecodes(t, b);
      ByteIdsSnoc(t, x);
      DecodeSnoc(t, ByteIds(t, y).value, t.byteTokenId[b]);
      assert x == y + [b];
    }
  }

  /** A unit that begins with the marker is the marker. */
  lemma MarkerIsWholeUnit(s: Bytes, p: nat)
    requires p < |s| && At(s[p..p + UnitAt(s, p).len], 0, MARKER)
    ensures s[p..p + UnitAt(s, p).len] == MARKER
  {
    var x := s[p..p + UnitAt(s, p).len];
    assert x[0] == MARKER[0] && x[1] == MARKER[1] && x[2] == MARKER[2];
    assert Cont(s, p + 1) && Cont(s, p + 2);
    assert x[..3] == x;
  }

  /** A lone unit other than the marker contains no marker. */
  lemma UnitWithoutMarker(s: Bytes, p: nat)
    requires p < |s| && s[p..p + UnitAt(s, p).len] != MARKER
    ensures !Contains(s[p..p + UnitAt(s, p).len], MARKER)
  {
    var n := UnitAt(s, p).len;
    var x := s[p..p + n];
    forall q | 0 <= q <= |x|
      ensures !At(x, q, MARKER)
    {
      if q == 0 && At(x, 0, MARKER) {
        MarkerIsWholeUnit(s, p);
      } else if q > 0 && q < |x| {
        assert Cont(s, p + q);
        assert x[q] != MARKER[0];
      }
    }
  }

  /** d decodes to the unmarked text u, or, when some piece was a byte piece, to something shorter. */
  predicate DecodesTo(d: Bytes, u: Bytes, bytePiece: bool) {
    if bytePiece then |d| < |u| else d == u
  }

  lemma UnmarkPlain(x: Bytes)
    requires |x| > 0 && x[0] != 226
    ensures |Unmark(x)| == 1 + |Unmark(x[1..])|
  {
    assert x[0] != MARKER[0];
    assert !At(x, 0, MARKER);
  }

  lemma SpelledByteIsLong(x: Bytes)
    requires SpellsByte(x)
    ensures |Unmark(x)| >= 3
  {
    assert x[0] == x[..3][0] && x[1] == x[..3][1] && x[2] == x[..3][2];
    UnmarkPlain(x);
    UnmarkPlain(x[1..]);
    UnmarkPlain(x[1..][1..]);
  }

  lemma PieceDecodes(t: Tokenizer, x: Bytes)
    requires RoundTripVocabulary(t) && x in t.tokenToId
    ensures SegIds(t, x).Ok?
    ensures DecodesTo(DecodeAll(t, SegIds(t, x).value), Unmark(x), IsBytePiece(t, x))
  {
    hide Unmark;
    var id := t.tokenToId[x];
    assert DecodeAll(t, [id]) == DecodePiece(t, id) by {
      assert [id][..0] == [];
    }
    if IsBytePiece(t, x) {
      SpelledByteIsLong(x);
    } else if t.types[id] == CONTROL {
      UnmarkLength(x);
    }
  }

  lemma BytesDecode(t: Tokenizer, s: Bytes, g: Seg)
    requires RoundTripVocabulary(t) && UnitOrPiece(t, s, g) && Text(s, g) !in t.tokenToId
    ensures SegIds(t, Text(s, g)).Ok?
    ensures DecodeAll(t, SegIds(t, Text(s, g)).value) == Unmark(Text(s, g))
  {
    hide Unmark, DecodeAll, UnitAt, ByteIds;
    var x := Text(s, g);
    assert x != MARKER;
    UnitWithoutMarker(s, g.off);
    UnmarkLength(x);
    ByteTokensDecode(t);
    ByteIdsDecode(t, x);
  }

  lemma VocabularyTyped(t: Tokenizer)
    requires RoundTripVocabulary(t)
    ensures |t.types| == |t.tokens|
  {
  }

  /** One segment: it decodes to its unmarked text, or, for a byte piece, to something strictly shorter. */
  lemma SegmentDecodes(t: Tokenizer, s: Bytes, g: Seg)
    requires RoundTripVocabulary(t) && UnitOrPiece(t, s, g)
    ensures var x := Text(s, g);
            && SegIds(t, x).Ok?
            && DecodesTo(DecodeAll(t, SegIds(t, x).value), Unmark(x), IsBytePiece(t, x))
  {
    hide Unmark, DecodeAll, SegIds, SpellsByte, UnitAt;
    VocabularyTyped(t);
    if Text(s, g) in t.tokenToId {
      PieceDecodes(t, Text(s, g));
    } else {
      BytesDecode(t, s, g);
    }
  }

  /** Unmarking the whole text is unmarking the segments one by one. */
  lemma UnmarkPrefix(s: Bytes, segs: seq<Seg>, n: nat)
    requires Tiles(s, segs) && Aligned(s, segs) && n < |segs|
    ensures var end := segs[n].off + segs[n].len;
            Unmark(s[..end]) == Unmark(s[..segs[n].off]) + Unmark(Text(s, segs[n]))
  {
    var off, end := segs[n].off, segs[n].off + segs[n].len;
    assert s[..end] == s[..off] + s[off..end];
    forall q | 0 <= q < off && At(s[..off] + s[off..end], q, MARKER)
      ensures q + 3 <= off
    {
      assert s[..end][q..q + 3] == s[q..q + 3];
      MarkerInsideUnit(s, 0, off, q);
    }
    UnmarkConcat(s[..off], s[off..end]);
  }

  ghost predicate HasBytePiece(t: Tokenizer, s: Bytes, segs: seq<Seg>, n: nat)
    requires n <= |segs| && forall j :: 0 <= j < |segs| ==> segs[j].off + segs[j].len <= |s|
  {
    exists j :: 0 <= j < n && IsBytePiece(t, Text(s, segs[j]))
  }

  function EndOf(segs: seq<Seg>, n: nat): nat
    requires n <= |segs|
  {
    if n == 0 then 0 else segs[n - 1].off + segs[n - 1].len
  }

  lemma DecodesToConcat(d1: Bytes, u1: Bytes, b1: bool, d2: Bytes, u2: Bytes, b2: bool)
    requires DecodesTo(d1, u1, b1) && DecodesTo(d2, u2, b2)
    ensures DecodesTo(d1 + d2, u1 + u2, b1 || b2)
  {
  }

  lemma HasBytePieceStep(t: Tokenizer, s: Bytes, segs: seq<Seg>, n: nat)
    requires 0 < n <= |segs| && forall j :: 0 <= j < |segs| ==> segs[j].off + segs[j].len <= |s|
    ensures HasBytePiece(t, s, segs, n) <==> HasBytePiece(t, s, segs, n - 1) || IsBytePiece(t, Text(s, segs[n - 1]))
  {
  }

  lemma NothingDecodes(t: Tokenizer, s: Bytes, segs: seq<Seg>)
    requires |t.types| == |t.tokens| && forall j :: 0 <= j < |segs| ==> segs[j].off + segs[j].len <= |s|
    ensures DecodesTo(DecodeAll(t, []), Unmark(s[..0]), HasBytePiece(t, s, segs, 0))
  {
    assert s[..0] == [];
  }

  /** The first n segments decode to the unmarked prefix of the text, or to something shorter. */
  lemma {:induction false} PrefixDecodes(t: Tokenizer, s: Bytes, segs: seq<Seg>, n: nat)
    requires RoundTripVocabulary(t) && Tiles(s, segs) && Aligned(s, segs) && AllUnitOrPiece(t, s, segs) && n <= |segs|
    ensures EndOf(segs, n) <= |s| && AllIds(t, s, segs, n).Ok?
    ensures DecodesTo(DecodeAll(t, AllIds(t, s, segs, n).value), Unmark(s[..EndOf(segs, n)]),
            HasBytePiece(t, s, segs, n))
  {
    hide Unmark, DecodeAll, RoundTripVocabulary, Aligned, DecodesTo, IsBytePiece, SegIds, HasBytePiece;
    VocabularyTyped(t);
    if n == 0 {
      NothingDecodes(t, s, segs);
    } else {
      var k := n - 1;
      PrefixDecodes(t, s, segs, k);
      assert EndOf(segs, k) == segs[k].off;
      UnmarkPrefix(s, segs, k);
      var x := Text(s, segs[k]);
      SegmentDecodes(t, s, segs[k]);
      var ids, more := AllIds(t, s, segs, k).value, SegIds(t, x).value;
      DecodeAllAppend(t, ids, more);
      HasBytePieceStep(t, s, segs, n);
      DecodesToConcat(DecodeAll(t, ids), Unmark(s[..segs[k].off]), HasBytePiece(t, s, segs, k),
                      DecodeAll(t, more), Unmark(x), IsBytePiece(t, x));
    }
  }

  /** The segmentation of the marked text s uses a spelled byte piece such as "<0x41>". */
  ghost predicate UsesBytePiece(t: Tokenizer, s: Bytes) {
    HasBytePiece(t, s, FinalSegs(t, s), |FinalSegs(t, s)|)
  }

  ghost function SegmentIds(t: Tokenizer, s: Bytes): Result<seq<int>> {
    AllIds(t, s, FinalSegs(t, s), |FinalSegs(t, s)|)
  }

  /** The final segmentation has the properties that decoding relies on. */
  lemma FinalSegsSound(t: Tokenizer, s: Bytes)
    ensures Tiles(s, FinalSegs(t, s)) && Aligned(s, FinalSegs(t, s)) && AllUnitOrPiece(t, s, FinalSegs(t, s))
  {
    UnitSegsTile(s, 0);
    UnitSegsAligned(t, s, 0);
    MergeKeeps(t, s, UnitSegs(s, 0));
  }

  lemma WholeTextDecodes(t: Tokenizer, s: Bytes, segs: seq<Seg>)
    requires RoundTripVocabulary(t) && Tiles(s, segs) && Aligned(s, segs) && AllUnitOrPiece(t, s, segs)
    ensures AllIds(t, s, segs, |segs|).Ok?
    ensures DecodesTo(DecodeAll(t, AllIds(t, s, segs, |segs|).value), Unmark(s), HasBytePiece(t, s, segs, |segs|))
  {
    PrefixDecodes(t, s, segs, |segs|);
    assert s[..EndOf(segs, |segs|)] == s;
  }

  lemma FinalSegsDecode(t: Tokenizer, s: Bytes)
    requires RoundTripVocabulary(t)
    ensures SegmentIds(t, s).Ok?
    ensures DecodesTo(DecodeAll(t, SegmentIds(t, s).value), Unmark(s), UsesBytePiece(t, s))
  {
    FinalSegsSound(t, s);
    WholeTextDecodes(t, s, FinalSegs(t, s));
  }

  /** A text that starts with the marker starts, once decoded, with a space: its first piece is never a byte piece. */
  lemma FirstPieceIsSpace(t: Tokenizer, s: Bytes, segs: seq<Seg>)
    requires RoundTripVocabulary(t) && Tiles(s, segs) && Aligned(s, segs) && AllUnitOrPiece(t, s, segs)
    requires At(s, 0, MARKER)
    ensures |segs| > 0 && SegIds(t, Text(s, segs[0])).Ok?
    ensures var d := DecodeAll(t, SegIds(t, Text(s, segs[0])).value);
            |d| > 0 && d[0] == 32
  {
    assert |s| >= 3;
    var n := segs[0].len;
    if |segs| > 1 {
      assert segs[1].off == n;
      MarkerInsideUnit(s, 0, n, 0);
    }
    var x := Text(s, segs[0]);
    assert x == s[..n] && x[..3] == s[..3] && x[0] == MARKER[0];
    assert !SpellsByte(x) by {
      assert [60, 48, 120][0] != MARKER[0];
      assert x[..3][0] == x[0];
    }
    SegmentDecodes(t, s, segs[0]);
    assert Unmark(x) == SPACE + Unmark(x[3..]);
    assert Unmark(x)[0] == SPACE[0];
  }

  lemma {:induction false} FirstByteStays(t: Tokenizer, s: Bytes, segs: seq<Seg>, n: nat)
    requires |t.types| == |t.tokens| && Tiles(s, segs) && 0 < n <= |segs| && AllIds(t, s, segs, n).Ok?
    requires SegIds(t, Text(s, segs[0])).Ok?
    requires var d := DecodeAll(t, SegIds(t, Text(s, segs[0])).value);
             |d| > 0 && d[0] == 32
    ensures var d := DecodeAll(t, AllIds(t, s, segs, n).value);
            |d| > 0 && d[0] == 32
  {
    var ids, more := AllIds(t, s, segs, n - 1).value, SegIds(t, Text(s, segs[n - 1])).value;
    DecodeAllAppend(t, ids, more);
    if n > 1 {
      FirstByteStays(t, s, segs, n - 1);
    } else {
      assert ids == [];
    }
  }

  lemma MarkedStartsWithSpace(t: Tokenizer, s: Bytes)
    requires RoundTripVocabulary(t) && At(s, 0, MARKER) && SegmentIds(t, s).Ok?
    ensures var d := DecodeAll(t, SegmentIds(t, s).value);
            |d| > 0 && d[0] == 32
  {
    FinalSegsSound(t, s);
    var segs := FinalSegs(t, s);
    FirstPieceIsSpace(t, s, segs);
    FirstByteStays(t, s, segs, |segs|);
  }

  lemma UnmarkPrefixed(t: Tokenizer, text: Bytes)
    ensures Unmark(Prefixed(t, text)) == if t.addSpacePrefix then SPACE + Unmark(text) else Unmark(text)
    ensures t.addSpacePrefix ==> At(Prefixed(t, text), 0, MARKER)
  {
    UnmarkMark(text);
    var s := Prefixed(t, text);
    if t.addSpacePrefix {
      assert s[..3] == MARKER && s[3..] == Mark(text);
    }
  }

  /** With no byte piece in the way, decoding what was encoded gives the text with its markers turned into spaces. */
  lemma EncodeDecode(t: Tokenizer, text: Bytes)
    requires RoundTripVocabulary(t)
    ensures EncodeSpec(t, text).Ok?
    ensures var back := DecodeSpec(t, EncodeSpec(t, text).value);
            DecodesTo(back, Unmark(text), |text| > 0 && UsesBytePiece(t, Prefixed(t, text)))
  {
    if |text| > 0 {
      var s := Prefixed(t, text);
      FinalSegsDecode(t, s);
      UnmarkPrefixed(t, text);
      var d := DecodeAll(t, SegmentIds(t, s).value);
      assert EncodeSpec(t, text) == SegmentIds(t, s);
      if t.addSpacePrefix {
        MarkedStartsWithSpace(t, s);
        assert (SPACE + Unmark(text))[1..] == Unmark(text);
      }
    }
  }

  /**
   * Exactly which texts survive, malformed UTF-8 included: those without a literal U+2581 whose segmentation
   * uses no piece that spells a byte.
   */
  lemma RoundTrip(t: Tokenizer, text: Bytes)
    requires RoundTripVocabulary(t)
    ensures EncodeSpec(t, text).Ok?
    ensures DecodeSpec(t, EncodeSpec(t, text).value) == text
       <==> !Contains(text, MARKER) && !(|text| > 0 && UsesBytePiece(t, Prefixed(t, text)))
  {
    EncodeDecode(t, text);
    UnmarkLength(text);
  }

  /** A check on the text alone: no U+2581 and no spelled byte token inside the marked text. */
  lemma RoundTripOfPlainText(t: Tokenizer, text: Bytes)
    requires RoundTripVocabulary(t) && !Contains(text, MARKER)
    requires forall i :: 0 <= i < |t.tokens| && t.types[i] == BYTE && SpellsByte(t.tokens[i]) ==>
               !Contains(Prefixed(t, text), t.tokens[i])
    ensures EncodeSpec(t, text).Ok? && DecodeSpec(t, EncodeSpec(t, text).value) == text
  {
    var s := Prefixed(t, text);
    var segs := FinalSegs(t, s);
    forall j | 0 <= j < |segs|
      ensures !IsBytePiece(t, Text(s, segs[j]))
    {
      var x := Text(s, segs[j]);
      if x in t.tokenToId {
        assert |x| == segs[j].len && At(s, segs[j].off, x);
        assert Contains(s, x);
        assert t.tokens[t.tokenToId[x]] == x;
      }
    }
    RoundTrip(t, text);
  }

  /** The documented promise of a byte-exact round trip fails for U+2581 itself, whatever the vocabulary. */
  lemma MarkerTextIsLost(t: Tokenizer)
    requires RoundTripVocabulary(t)
    ensures EncodeSpec(t, MARKER).Ok? && DecodeSpec(t, EncodeSpec(t, MARKER).value) != MARKER
  {
    assert At(MARKER, 0, MARKER);
    RoundTrip(t, MARKER);
  }
}
