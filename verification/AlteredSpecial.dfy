/**
 * A GPT-2 vocabulary with all byte atoms and a special token that encoding and decoding lose: byte decoding turns the
 * token's two-byte letter into a single byte.
 */
module AlteredSpecial {
  import opened Common
  import opened ByteStrings
  import opened ByteUnicode
  import opened Tokenizer
  import opened Gpt2

  /** "<\u00e9>" in UTF-8. */
  const ACCENTED: Bytes := [60, 0xC3, 0xA9, 62]

  lemma LowAtoms()
    ensures Atom(60) == [60] && Atom(62) == [62]
  {
    OneByteAtom(60);
    OneByteAtom(62);
  }

  lemma AccentAtom()
    ensures Atom(233) == [0xC3, 0xA9]
  {
  }

  lemma AccentedIsSpelled()
    ensures EncodeBytes([60, 233, 62]) == ACCENTED
  {
    hide Atom;
    LowAtoms();
    AccentAtom();
    EncodeSingle(60);
    EncodeSingle(233);
    EncodeSingle(62);
    EncodeAppend([60], [233]);
    EncodeAppend([60, 233], [62]);
    assert [60] + [233] == [60, 233] && [60, 233] + [62] == [60, 233, 62];
  }

  /** Byte decoding reads the special token as the spelling of three bytes. */
  lemma AccentedIsAltered()
    ensures DecodeBytes(ACCENTED) == [60, 233, 62] != ACCENTED
  {
    AccentedIsSpelled();
    DecodeEncode([60, 233, 62]);
  }

  /** The 256 atoms and the special token. */
  function AtomTokens(): (tokens: seq<Bytes>)
    ensures |tokens| == 257 && tokens[256] == ACCENTED
    ensures forall b :: 0 <= b < 256 ==> tokens[b] == Atom(b)
  {
    seq(256, b requires 0 <= b < 256 => Atom(b)) + [ACCENTED]
  }

  function AccentedVocabulary(): Tokenizer {
    Tokenizer(AtomTokens(), seq(257, _ => 0.0), seq(256, _ => 1) + [CONTROL], "gpt2", false, -1, -1, (x: Bytes) => None,
              IdTable(AtomTokens()), [(ACCENTED, 256)], ByLength(AtomTokens(), |ACCENTED|), map[], true, map[])
  }

  lemma AtomTokensShort()
    ensures forall i :: 0 <= i < 257 ==> |AtomTokens()[i]| <= |ACCENTED|
  {
    hide Atom;
    forall i | 0 <= i < 257
      ensures |AtomTokens()[i]| <= |ACCENTED|
    {
      if i < 256 {
        OneByteAtom(i);
      }
    }
  }

  lemma AccentedComplete()
    ensures ByteComplete(AccentedVocabulary())
  {
    hide AtomTokens, IdTable, Atom, ACCENTED, ByLength, Lists, LongestFirst;
    var t := AccentedVocabulary();
    IdTableIsIndex(t.tokens);
    AtomTokensShort();
    ShortIsLongestFirst(t.specials);
    ByLengthLists(t.tokens, |ACCENTED|);
    forall b: Byte
      ensures Atom(b) in t.tokenToId
    {
      assert t.tokens[b] == Atom(b);
    }
  }

  /** All 256 atoms are present, and the special token's own text does not come back. */
  lemma AccentedIsLost()
    ensures ByteComplete(AccentedVocabulary()) && EncodeSpec(AccentedVocabulary(), ACCENTED).Ok?
    ensures DecodeSpec(AccentedVocabulary(), EncodeSpec(AccentedVocabulary(), ACCENTED).value) != ACCENTED
  {
    hide AtomTokens, IdTable, ACCENTED, ByLength;
    AccentedComplete();
    AccentedIsAltered();
    AlteredSpecialIsLost(AccentedVocabulary(), 0);
  }
}
