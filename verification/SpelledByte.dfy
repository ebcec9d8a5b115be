/**
 * A vocabulary and a text that SentencePiece encoding and decoding lose although the text has no marker: the text
 * spells a byte piece, merging assembles that piece, and decoding turns it into the byte.
 */
module SpelledByte {
  import opened Common
  import opened ByteStrings
  import opened ByteUnicode
  import opened Tokenizer
  import opened SentencePieceMerge
  import opened SentencePiece

  /** The text "<0x41>". */
  const SPELLED: Bytes := [60, 48, 120, 52, 49, 62]

  /** The first k bytes have been merged into one segment, the others are still alone. */
  function Grown(k: nat): (segs: seq<Seg>)
    requires 1 <= k <= 6
    ensures |segs| == 7 - k && segs[0] == Seg(0, k) && forall j :: 1 <= j < 7 - k ==> segs[j] == Seg(k + j - 1, 1)
  {
    [Seg(0, k)] + seq(6 - k, i requires 0 <= i < 6 - k => Seg(k + i, 1))
  }

  /** A vocabulary in which the text grows from the left, and only from the left, into the byte piece it spells. */
  ghost predicate Grows(t: Tokenizer) {
    && |t.scores| == |t.tokens| && (forall x :: x in t.tokenToId ==> t.tokenToId[x] < |t.tokens|)
    && (forall k :: 2 <= k <= 6 ==> SPELLED[..k] in t.tokenToId)
    && (forall x :: x in t.tokenToId && |x| == 2 ==> x == [60, 48])
    && IsBytePiece(t, SPELLED)
  }

  lemma AsciiUnit(p: nat)
    requires p < 6
    ensures UnitAt(SPELLED, p).len == 1 && |SPELLED| == 6
  {
  }

  lemma {:induction false} GrownUnits(p: nat)
    requires p <= 6
    ensures |UnitSegs(SPELLED, p)| == 6 - p
    ensures forall j :: 0 <= j < 6 - p ==> UnitSegs(SPELLED, p)[j] == Seg(p + j, 1)
    decreases 6 - p
  {
    hide UnitAt;
    if p < 6 {
      AsciiUnit(p);
      GrownUnits(p + 1);
    }
  }

  lemma GrownTiles(k: nat)
    requires 1 <= k <= 6
    ensures Tiles(SPELLED, Grown(k))
  {
  }

  lemma GrowsOnlyLeft(t: Tokenizer, k: nat)
    requires Grows(t) && 1 <= k < 6
    ensures IsBest(SPELLED, Scorer(t), Grown(k), 0)
  {
    var g, score := Grown(k), Scorer(t);
    assert SPELLED[0..k + 1] == SPELLED[..k + 1];
    forall j | 1 <= j < |g| - 1
      ensures PairScore(SPELLED, score, g, j).None?
    {
      var x := SPELLED[k + j - 1..k + j + 1];
      assert x[0] != 60;
    }
  }

  lemma GrowOne(t: Tokenizer, k: nat)
    requires Grows(t) && 1 <= k < 6 && Tiles(SPELLED, Grown(k)) && Tiles(SPELLED, Grown(k + 1))
    ensures NaiveMerge(SPELLED, Scorer(t), Grown(k)) == NaiveMerge(SPELLED, Scorer(t), Grown(k + 1))
  {
    hide Grows, IsBest, Scorer, PairScore, Tiles, SPELLED;
    GrowsOnlyLeft(t, k);
    BestPairIsBest(SPELLED, Scorer(t), Grown(k));
    assert Merge(Grown(k), 0) == Grown(k + 1);
  }

  lemma NothingToMerge(t: Tokenizer)
    requires Tiles(SPELLED, Grown(6))
    ensures NaiveMerge(SPELLED, Scorer(t), Grown(6)) == Grown(6)
  {
    BestPairIsBest(SPELLED, Scorer(t), Grown(6));
  }

  lemma {:induction false} GrowAll(t: Tokenizer, k: nat)
    requires Grows(t) && 1 <= k <= 6 && Tiles(SPELLED, Grown(k))
    ensures NaiveMerge(SPELLED, Scorer(t), Grown(k)) == Grown(6)
    decreases 6 - k
  {
    hide NaiveMerge, Grown, Scorer, Tiles, Grows;
    if k < 6 {
      GrownTiles(k + 1);
      GrowOne(t, k);
      GrowAll(t, k + 1);
    } else {
      NothingToMerge(t);
    }
  }

  lemma UnitsAreGrown()
    ensures UnitSegs(SPELLED, 0) == Grown(1)
  {
    hide UnitSegs, UnitAt;
    GrownUnits(0);
  }

  lemma FinalIsGrown(t: Tokenizer)
    requires Grows(t)
    ensures FinalSegs(t, SPELLED) == Grown(6)
  {
    hide NaiveMerge, Grows, Grown, UnitSegs, SPELLED, Scorer;
    UnitSegsTile(SPELLED, 0);
    UnitsAreGrown();
    GrownTiles(1);
    GrowAll(t, 1);
  }

  /** In such a vocabulary the text becomes a single byte piece. */
  lemma GrownIsBytePiece(t: Tokenizer)
    requires Grows(t)
    ensures UsesBytePiece(t, SPELLED)
  {
    hide FinalSegs, IsBytePiece;
    FinalIsGrown(t);
    var segs := FinalSegs(t, SPELLED);
    assert segs[0] == Seg(0, 6) && SPELLED[0..6] == SPELLED;
    assert IsBytePiece(t, Text(SPELLED, segs[0]));
  }

  function HexDigit(d: nat): Byte
    requires d < 16
  {
    if d < 10 then 48 + d else 55 + d
  }

  function DigitOf(c: Byte): int {
    if c < 65 then c - 48 else c - 55
  }

  /** "<0xHH>" */
  function Spelling(b: Byte): (x: Bytes)
    ensures |x| == 6 && SpellsByte(x)
  {
    [60, 48, 120, HexDigit(b / 16), HexDigit(b % 16), 62]
  }

  /** The marker, the prefixes of "<0x41>" and the 256 byte pieces. */
  function SpellingTokens(): (tokens: seq<Bytes>)
    ensures |tokens| == 261 && tokens[0] == MARKER
    ensures forall k :: 2 <= k <= 5 ==> tokens[k - 1] == SPELLED[..k]
    ensures forall b: Byte :: tokens[5 + b] == Spelling(b)
  {
    [MARKER, SPELLED[..2], SPELLED[..3], SPELLED[..4], SPELLED[..5]] + seq(256, b requires 0 <= b < 256 => Spelling(b))
  }

  /** Byte b's piece is token 5 + b. */
  function ByteTable(n: nat): (m: map<int, nat>)
    ensures forall b :: b in m <==> 0 <= b < n
    ensures forall b :: 0 <= b < n ==> m[b] == 5 + b
  {
    if n == 0 then map[] else ByteTable(n - 1)[n - 1 := 5 + (n - 1)]
  }

  function SpellingVocabulary(): Tokenizer {
    var tokens := SpellingTokens();
    Tokenizer(tokens, seq(261, _ => 0.0), seq(5, _ => 1) + seq(256, _ => BYTE), "llama", false, -1, -1,
              (x: Bytes) => if |x| == 2 then Some(16 * DigitOf(x[0]) + DigitOf(x[1])) else None,
              IdTable(tokens), [], ByLength(tokens, |SPELLED|), ByteTable(256), false, map[])
  }

  lemma SpellingTypes()
    ensures var t := SpellingVocabulary();
            |t.types| == 261 && forall i :: 0 <= i < 261 ==> t.types[i] == if i < 5 then 1 else BYTE
  {
    hide ByLength;
  }

  /** A token that long is a byte piece, a token of two bytes is "<0", and no token is a single byte. */
  lemma TokenLengths(i: nat)
    requires i < 261
    ensures 2 <= |SpellingTokens()[i]| <= 6
    ensures |SpellingTokens()[i]| == 6 <==> i >= 5
    ensures |SpellingTokens()[i]| == 2 ==> SpellingTokens()[i] == [60, 48]
  {
    if i >= 5 {
      assert SpellingTokens()[5 + (i - 5)] == Spelling(i - 5);
    } else if i > 0 {
      assert SpellingTokens()[(i + 1) - 1] == SPELLED[..i + 1];
    }
  }

  lemma SpellingByte(b: Byte)
    ensures IsByteToken(SpellingVocabulary(), 5 + b, b)
  {
    hide ByLength;
    SpellingTypes();
    var t := SpellingVocabulary();
    assert t.tokens[5 + b] == Spelling(b);
    assert Spelling(b)[3..5] == [HexDigit(b / 16), HexDigit(b % 16)];
  }

  lemma AtomOfBang()
    ensures |Atom(33)| == 1
  {
  }

  lemma SpellingIncomplete()
    ensures Atom(33) !in SpellingVocabulary().tokenToId
  {
    hide SpellingTokens, IdTable, Atom, ByLength;
    var t := SpellingVocabulary();
    IdTableIsIndex(t.tokens);
    if Atom(33) in t.tokenToId {
      AtomOfBang();
      TokenLengths(t.tokenToId[Atom(33)]);
    }
  }

  lemma SpellingListed()
    ensures var t := SpellingVocabulary();
            LongestFirst(t.specials) && LongestFirst(t.greedy) && Lists(t.greedy, t.tokens, |t.tokens|)
  {
    hide SpellingTokens, IdTable, ByteTable, ByLength, Lists, LongestFirst;
    var t := SpellingVocabulary();
    forall i | 0 <= i < 261
      ensures |SpellingTokens()[i]| <= |SPELLED|
    {
      TokenLengths(i);
    }
    ByLengthLists(t.tokens, |SPELLED|);
    ShortIsLongestFirst(t.specials);
  }

  lemma SpellingWellBuilt()
    ensures WellBuilt(SpellingVocabulary())
  {
    hide SpellingTokens, IdTable, IsByteToken, Atom, ByteTable, SpellsByte, ByLength, Lists, LongestFirst;
    var t := SpellingVocabulary();
    SpellingTypes();
    IdTableIsIndex(t.tokens);
    SpellingListed();
    forall b | b in t.byteTokenId
      ensures IsByteToken(t, t.byteTokenId[b], b)
    {
      SpellingByte(b);
    }
    SpellingIncomplete();
  }

  lemma SpelledPrefix(k: nat)
    requires 2 <= k <= 6
    ensures |SPELLED| == 6 && SpellsByte(SPELLED) && SPELLED[..6] == SPELLED
    ensures SPELLED[..k] in SpellingTokens()
  {
    var tokens := SpellingTokens();
    assert tokens[5 + 65] == Spelling(65) == SPELLED[..6];
    if k < 6 {
      assert tokens[k - 1] == SPELLED[..k];
    }
  }

  lemma SpellingGrows()
    ensures Grows(SpellingVocabulary())
  {
    hide SpellingTokens, IdTable, SPELLED, ByteTable, ByLength;
    var t := SpellingVocabulary();
    SpellingTypes();
    IdTableIsIndex(t.tokens);
    SpelledPrefix(6);
    forall k | 2 <= k <= 6
      ensures SPELLED[..k] in t.tokenToId
    {
      SpelledPrefix(k);
    }
    forall x | x in t.tokenToId && |x| == 2
      ensures x == [60, 48]
    {
      TokenLengths(t.tokenToId[x]);
    }
    TokenLengths(t.tokenToId[SPELLED]);
  }

  lemma {:induction false} NoSpaceNoMark(x: Bytes)
    requires 32 !in x
    ensures Mark(x) == x
  {
    if |x| > 0 {
      assert x[0] == x[..1][0];
      NoSpaceNoMark(x[1..]);
    }
  }

  lemma UnmarkedText(t: Tokenizer)
    requires !t.addSpacePrefix
    ensures Prefixed(t, SPELLED) == SPELLED
  {
    NoSpaceNoMark(SPELLED);
  }

  /** A vocabulary that offers everything the round trip asks for, and a plain ASCII text, "<0x41>", that it loses. */
  lemma SpelledByteIsLost()
    ensures RoundTripVocabulary(SpellingVocabulary()) && UsesBytePiece(SpellingVocabulary(), SPELLED)
    ensures EncodeSpec(SpellingVocabulary(), SPELLED).Ok?
    ensures DecodeSpec(SpellingVocabulary(), EncodeSpec(SpellingVocabulary(), SPELLED).value) != SPELLED
  {
    hide ByLength, Grows, UsesBytePiece, SpellingTokens, IdTable, EncodeSpec, DecodeSpec, Prefixed;
    var t := SpellingVocabulary();
    SpellingWellBuilt();
    SpellingTypes();
    IdTableIsIndex(t.tokens);
    assert t.tokens[0] == MARKER;
    SpellingGrows();
    GrownIsBytePiece(t);
    UnmarkedText(t);
    RoundTrip(t, SPELLED);
  }
}
