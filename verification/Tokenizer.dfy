/** The tokenizer's vocabulary tables: how they are built, and how one token is decoded. */
module Tokenizer {
  import opened Common
  import opened ByteStrings
  import opened ByteUnicode

  /** An immutable tokenizer. `hex` is std::stoi(_, nullptr, 16) on a two-byte string: None when it throws. */
  datatype Tokenizer = Tokenizer(
    tokens: seq<Bytes>,
    scores: seq<real>,
    types: seq<int>,
    model: string,
    addSpacePrefix: bool,
    bos: int,
    unk: int,
    hex: Bytes -> Option<int>,
    tokenToId: map<Bytes, nat>,
    specials: seq<(Bytes, nat)>,
    greedy: seq<(Bytes, nat)>,
    byteTokenId: map<int, nat>,
    byteBpeComplete: bool,
    mergeRank: map<Bytes, nat>)

  const CONTROL: int := 3
  const USER_DEFINED: int := 4
  const BYTE: int := 6

  predicate IsSentencePiece(t: Tokenizer) {
    t.model == "llama" || t.model == "replit"
  }

  /** Six bytes starting with "<0x". */
  predicate SpellsByte(x: Bytes) {
    |x| == 6 && x[..3] == [60, 48, 120]
  }

  /** Token i is the byte-fallback piece of byte b. */
  predicate IsByteToken(t: Tokenizer, i: nat, b: int) {
    && i < |t.tokens| && i < |t.types| && t.types[i] == BYTE
    && SpellsByte(t.tokens[i]) && t.tokens[i][5] == 62
    && t.hex(t.tokens[i][3..5]) == Some(b)
  }

  predicate IsSpecial(t: Tokenizer, i: nat) {
    i < |t.tokens| && i < |t.types| && (t.types[i] == CONTROL || t.types[i] == USER_DEFINED)
  }

  predicate LongestFirst(list: seq<(Bytes, nat)>) {
    forall j, k :: 0 <= j < k < |list| ==> |list[j].0| >= |list[k].0|
  }

  lemma ShortIsLongestFirst(list: seq<(Bytes, nat)>)
    requires |list| <= 1
    ensures LongestFirst(list)
  {
  }

  /** The list holds exactly the first n tokens with their ids. */
  ghost predicate Lists(list: seq<(Bytes, nat)>, tokens: seq<Bytes>, n: nat)
    requires n <= |tokens|
  {
    && (forall e :: e in list ==> e.1 < n && e.0 == tokens[e.1])
    && (forall i :: 0 <= i < n ==> (tokens[i], i) in list)
  }

  /** Every table points back at the token list it was built from. */
  ghost predicate WellBuilt(t: Tokenizer) {
    && |t.scores| == |t.tokens| && |t.types| == |t.tokens|
    && (forall x :: x in t.tokenToId ==> t.tokenToId[x] < |t.tokens| && t.tokens[t.tokenToId[x]] == x)
    && (forall i :: 0 <= i < |t.tokens| ==> t.tokens[i] in t.tokenToId && i <= t.tokenToId[t.tokens[i]])
    && (forall b :: b in t.byteTokenId ==> 0 <= b < 256 && IsByteToken(t, t.byteTokenId[b], b))
    && (forall k :: 0 <= k < |t.specials| ==>
          IsSpecial(t, t.specials[k].1) && t.specials[k].0 == t.tokens[t.specials[k].1])
    && (forall i :: 0 <= i < |t.tokens| && IsSpecial(t, i) ==> (t.tokens[i], i) in t.specials)
    && LongestFirst(t.specials) && LongestFirst(t.greedy) && Lists(t.greedy, t.tokens, |t.tokens|)
    && (t.byteBpeComplete <==> forall b: Byte :: Atom(b) in t.tokenToId)
  }

  /** Tokens of type 3 and 4 are special; byte tokens are those of type 6 that read "<0x..>". */
  lemma KindsAre(t: Tokenizer, i: nat, b: int)
    requires |t.types| == |t.tokens| && i < |t.tokens|
    ensures IsSpecial(t, i) <==> t.types[i] in {3, 4}
    ensures var x := t.tokens[i];
            IsByteToken(t, i, b) <==>
            && t.types[i] == 6 && |x| == 6 && x[0] == '<' as int && x[1] == '0' as int && x[2] == 'x' as int
            && x[5] == '>' as int && t.hex([x[3], x[4]]) == Some(b)
  {
    var x := t.tokens[i];
    if |x| == 6 {
      assert x[3..5] == [x[3], x[4]];
      assert x[..3] == [x[0], x[1], x[2]];
    }
  }

  function Resized<T>(s: seq<T>, n: nat, d: T): (r: seq<T>)
    ensures |r| == n
    ensures forall i :: 0 <= i < n ==> r[i] == if i < |s| then s[i] else d
  {
    if |s| >= n then s[..n] else s + seq(n - |s|, _ => d)
  }

  lemma InsertedElements<T>(s: seq<T>, i: nat, x: T)
    requires i <= |s|
    ensures forall e :: e in s[..i] + [x] + s[i..] <==> e == x || e in s
  {
    assert s == s[..i] + s[i..];
  }

  /** Inserts one token, keeping the list ordered longest first. */
  method InsertByLength(sorted: seq<(Bytes, nat)>, x: (Bytes, nat)) returns (r: seq<(Bytes, nat)>)
    requires LongestFirst(sorted)
    ensures LongestFirst(r)
    ensures forall e :: e in r <==> e == x || e in sorted
  {
    var i := 0;
    while i < |sorted| && |sorted[i].0| >= |x.0|
      invariant 0 <= i <= |sorted|
      invariant forall j :: 0 <= j < i ==> |sorted[j].0| >= |x.0|
    {
      i := i + 1;
    }
    InsertedElements(sorted, i, x);
    r := sorted[..i] + [x] + sorted[i..];
  }

  method SortByLength(raw: seq<(Bytes, nat)>) returns (sorted: seq<(Bytes, nat)>)
    ensures LongestFirst(sorted)
    ensures forall e :: e in sorted <==> e in raw
  {
    sorted := [];
    for i := 0 to |raw|
      invariant LongestFirst(sorted)
      invariant forall e :: e in sorted <==> e in raw[..i]
    {
      sorted := InsertByLength(sorted, raw[i]);
      assert raw[..i + 1] == raw[..i] + [raw[i]];
    }
    assert raw[..|raw|] == raw;
  }

  /** The key under which the merge of a and b is ranked. */
  function MergeKey(a: Bytes, b: Bytes): Bytes {
    a + [31] + b
  }

  predicate SplitsAt(z: Bytes, sp: nat, k: Bytes) {
    sp < |z| && z[sp] == 32 && 32 !in z[..sp] && k == MergeKey(z[..sp], z[sp + 1..])
  }

  /** Merge i is "left right", split at its first space, and k is its key. */
  predicate RanksAs(merges: seq<Bytes>, i: nat, k: Bytes) {
    i < |merges| && exists sp :: 0 <= sp < |merges[i]| && SplitsAt(merges[i], sp, k)
  }

  /** The ranks of the first n merges: each one that has a space is ranked, and the last of equal ones wins. */
  ghost predicate RankedTo(merges: seq<Bytes>, rank: map<Bytes, nat>, n: nat) {
    && (forall k :: k in rank ==> rank[k] < n && RanksAs(merges, rank[k], k))
    && (forall i, k :: 0 <= i < n && RanksAs(merges, i, k) ==> k in rank && i <= rank[k])
  }

  lemma SpaceInPrefix(z: Bytes, a: nat, b: nat)
    requires a < |z| && b <= |z| && z[a] == 32
    ensures a < b ==> 32 in z[..b]
  {
    if a < b {
      assert z[..b][a] == 32;
    }
  }

  /** A merge is split at its first space only. */
  lemma SplitIsUnique(z: Bytes, a: nat, k: Bytes, b: nat, l: Bytes)
    requires SplitsAt(z, a, k) && SplitsAt(z, b, l)
    ensures k == l
  {
    SpaceInPrefix(z, a, b);
    SpaceInPrefix(z, b, a);
  }

  lemma RankOne(merges: seq<Bytes>, rank: map<Bytes, nat>, i: nat, sp: nat, key: Bytes)
    requires RankedTo(merges, rank, i) && i < |merges| && SplitsAt(merges[i], sp, key)
    ensures RankedTo(merges, rank[key := i], i + 1)
  {
    forall k | RanksAs(merges, i, k)
      ensures k == key
    {
      var q :| 0 <= q < |merges[i]| && SplitsAt(merges[i], q, k);
      SplitIsUnique(merges[i], sp, key, q, k);
    }
    assert RanksAs(merges, i, key);
  }

  lemma RankNone(merges: seq<Bytes>, rank: map<Bytes, nat>, i: nat)
    requires RankedTo(merges, rank, i) && i < |merges| && 32 !in merges[i]
    ensures RankedTo(merges, rank, i + 1)
  {
  }

  method RankMerges(merges: seq<Bytes>) returns (rank: map<Bytes, nat>)
    ensures RankedTo(merges, rank, |merges|)
  {
    rank := map[];
    for i := 0 to |merges|
      invariant RankedTo(merges, rank, i)
    {
      var z := merges[i];
      var sp := Find(z, SPACE, 0);
      if sp.Some? {
        assert z[sp.value..sp.value + 1] == SPACE;
        assert z[sp.value] == SPACE[0];
        forall q | 0 <= q < sp.value
          ensures z[q] != 32
        {
          assert !At(z, q, SPACE);
          assert z[q..q + 1] == [z[q]];
        }
        var key := MergeKey(z[..sp.value], z[sp.value + 1..]);
        assert SplitsAt(z, sp.value, key);
        RankOne(merges, rank, i, sp.value, key);
        rank := rank[key := i];
      } else {
        forall q | 0 <= q < |z|
          ensures z[q] != 32
        {
          assert !At(z, q, SPACE);
          assert z[q..q + 1] == [z[q]];
        }
        RankNone(merges, rank, i);
      }
    }
  }

  /** The tables after the first i tokens. */
  ghost predicate IndexedTo(tokens: seq<Bytes>, ids: map<Bytes, nat>, i: nat)
    requires i <= |tokens|
  {
    && (forall x :: x in ids ==> ids[x] < i && tokens[ids[x]] == x)
    && (forall j :: 0 <= j < i ==> tokens[j] in ids && j <= ids[tokens[j]])
  }

  /** The id table of a token list, the last id winning. */
  function IdTable(tokens: seq<Bytes>): map<Bytes, nat> {
    if |tokens| == 0 then map[]
    else IdTable(tokens[..|tokens| - 1])[tokens[|tokens| - 1] := |tokens| - 1]
  }

  lemma {:induction false} IdTableIsIndex(tokens: seq<Bytes>)
    ensures IndexedTo(tokens, IdTable(tokens), |tokens|)
  {
    if |tokens| > 0 {
      IdTableIsIndex(tokens[..|tokens| - 1]);
    }
  }

  /** The first n tokens that are len bytes long. */
  function OfLength(tokens: seq<Bytes>, len: nat, n: nat): seq<(Bytes, nat)>
    requires n <= |tokens|
  {
    if n == 0 then []
    else OfLength(tokens, len, n - 1) + if |tokens[n - 1]| == len then [(tokens[n - 1], n - 1)] else []
  }

  /** The tokens of at most len bytes, longest first. */
  function ByLength(tokens: seq<Bytes>, len: nat): seq<(Bytes, nat)> {
    OfLength(tokens, len, |tokens|) + if len == 0 then [] else ByLength(tokens, len - 1)
  }

  lemma {:induction false} OfLengthIs(tokens: seq<Bytes>, len: nat, n: nat)
    requires n <= |tokens|
    ensures forall e :: e in OfLength(tokens, len, n) <==> e.1 < n && e.0 == tokens[e.1] && |e.0| == len
  {
    if n > 0 {
      OfLengthIs(tokens, len, n - 1);
    }
  }

  lemma {:induction false} ByLengthIs(tokens: seq<Bytes>, len: nat)
    ensures LongestFirst(ByLength(tokens, len))
    ensures forall e :: e in ByLength(tokens, len) <==> e.1 < |tokens| && e.0 == tokens[e.1] && |e.0| <= len
  {
    OfLengthIs(tokens, len, |tokens|);
    var first := OfLength(tokens, len, |tokens|);
    assert forall j :: 0 <= j < |first| ==> first[j] in first;
    if len > 0 {
      ByLengthIs(tokens, len - 1);
      var rest := ByLength(tokens, len - 1);
      assert forall j :: 0 <= j < |rest| ==> rest[j] in rest;
    }
  }

  lemma ByLengthLists(tokens: seq<Bytes>, len: nat)
    requires forall i :: 0 <= i < |tokens| ==> |tokens[i]| <= len
    ensures LongestFirst(ByLength(tokens, len)) && Lists(ByLength(tokens, len), tokens, |tokens|)
  {
    ByLengthIs(tokens, len);
  }

  ghost predicate SpecialsTo(t: Tokenizer, raw: seq<(Bytes, nat)>, i: nat)
    requires i <= |t.tokens|
  {
    && (forall e :: e in raw ==> IsSpecial(t, e.1) && e.0 == t.tokens[e.1])
    && (forall j :: 0 <= j < i && IsSpecial(t, j) ==> (t.tokens[j], j) in raw)
  }

  ghost predicate BytesTo(t: Tokenizer, byteIds: map<int, nat>, i: nat) {
    && (forall b :: b in byteIds ==> 0 <= b < 256 && IsByteToken(t, byteIds[b], b))
    && (forall j, b :: 0 <= j < i && 0 <= b < 256 && IsByteToken(t, j, b) ==> b in byteIds && j <= byteIds[b])
  }

  method NoteSpecial(t: Tokenizer, raw: seq<(Bytes, nat)>, i: nat) returns (raw': seq<(Bytes, nat)>)
    requires i < |t.tokens| == |t.types| && SpecialsTo(t, raw, i)
    ensures SpecialsTo(t, raw', i + 1)
  {
    raw' := raw;
    if t.types[i] == CONTROL || t.types[i] == USER_DEFINED {
      raw' := raw + [(t.tokens[i], i)];
    }
  }

  method NoteByte(t: Tokenizer, byteIds: map<int, nat>, i: nat) returns (byteIds': map<int, nat>)
    requires i < |t.tokens| == |t.types| && BytesTo(t, byteIds, i)
    ensures BytesTo(t, byteIds', i + 1)
  {
    byteIds' := byteIds;
    if t.types[i] == BYTE && SpellsByte(t.tokens[i]) && t.tokens[i][5] == 62 {
      var b := t.hex(t.tokens[i][3..5]);
      if b.Some? && 0 <= b.value <= 255 {
        byteIds' := byteIds[b.value := i];
      }
    }
  }

  method AtomsComplete(ids: map<Bytes, nat>) returns (complete: bool)
    ensures complete <==> forall b: Byte :: Atom(b) in ids
  {
    var atoms := MakeByteUnicode();
    for b := 0 to 256
      invariant forall c :: 0 <= c < b ==> Atom(c) in ids
    {
      if atoms[b] !in ids {
        assert Atom(b) !in ids;
        return false;
      }
    }
    return true;
  }

  lemma Assembled(base: Tokenizer, raw: seq<(Bytes, nat)>, t: Tokenizer)
    requires |base.scores| == |base.tokens| == |base.types|
    requires SpecialsTo(base, raw, |base.tokens|) && IndexedTo(base.tokens, t.tokenToId, |base.tokens|)
    requires BytesTo(base, t.byteTokenId, |base.tokens|)
    requires forall e :: e in t.specials <==> e in raw
    requires LongestFirst(t.specials) && LongestFirst(t.greedy) && Lists(t.greedy, base.tokens, |base.tokens|)
    requires t.byteBpeComplete <==> forall b: Byte :: Atom(b) in t.tokenToId
    requires t.tokens == base.tokens && t.types == base.types && t.scores == base.scores && t.hex == base.hex
    ensures WellBuilt(t) && BytesTo(t, t.byteTokenId, |t.tokens|)
  {
    hide LongestFirst, Lists, Atom;
    forall k | 0 <= k < |t.specials|
      ensures IsSpecial(t, t.specials[k].1) && t.specials[k].0 == t.tokens[t.specials[k].1]
    {
      assert t.specials[k] in raw;
    }
    forall i, b | IsByteToken(t, i, b)
      ensures IsByteToken(base, i, b)
    {
    }
  }

  lemma NothingIndexed(t: Tokenizer)
    ensures IndexedTo(t.tokens, map[], 0) && SpecialsTo(t, [], 0) && BytesTo(t, map[], 0) && Lists([], t.tokens, 0)
  {
  }

  lemma IndexOne(tokens: seq<Bytes>, ids: map<Bytes, nat>, all: seq<(Bytes, nat)>, i: nat)
    requires i < |tokens| && IndexedTo(tokens, ids, i) && Lists(all, tokens, i)
    ensures IndexedTo(tokens, ids[tokens[i] := i], i + 1) && Lists(all + [(tokens[i], i)], tokens, i + 1)
  {
  }

  lemma SameLists(list: seq<(Bytes, nat)>, all: seq<(Bytes, nat)>, tokens: seq<Bytes>)
    requires Lists(all, tokens, |tokens|) && forall e :: e in list <==> e in all
    ensures Lists(list, tokens, |tokens|)
  {
  }

  /** Fills the tables from the metadata of a GGUF file. */
  method Build(tokens: seq<Bytes>, scores: seq<real>, types: seq<int>, model: string, addSpacePrefix: bool,
               bos: int, unk: int, merges: seq<Bytes>, hex: Bytes -> Option<int>) returns (t: Tokenizer)
    ensures WellBuilt(t)
    ensures t.tokens == tokens && t.model == model && t.addSpacePrefix == addSpacePrefix && t.hex == hex
    ensures t.bos == bos && t.unk == unk
    ensures t.scores == Resized(scores, |tokens|, 0.0) && t.types == Resized(types, |tokens|, 1)
    ensures BytesTo(t, t.byteTokenId, |tokens|)
    ensures RankedTo(merges, t.mergeRank, |merges|)
  {
    hide WellBuilt, IndexedTo, SpecialsTo, BytesTo, Lists, LongestFirst, RankedTo, Atom;
    var base := Tokenizer(tokens, Resized(scores, |tokens|, 0.0), Resized(types, |tokens|, 1), model, addSpacePrefix,
                          bos, unk, hex, map[], [], [], map[], false, map[]);
    var raw: seq<(Bytes, nat)> := [];
    var all: seq<(Bytes, nat)> := [];
    var ids: map<Bytes, nat> := map[];
    var byteIds: map<int, nat> := map[];
    NothingIndexed(base);
    for i := 0 to |tokens|
      invariant IndexedTo(tokens, ids, i) && SpecialsTo(base, raw, i) && BytesTo(base, byteIds, i)
      invariant Lists(all, tokens, i)
    {
      IndexOne(tokens, ids, all, i);
      ids := ids[tokens[i] := i];
      all := all + [(tokens[i], i)];
      raw := NoteSpecial(base, raw, i);
      byteIds := NoteByte(base, byteIds, i);
    }
    var specials := SortByLength(raw);
    var greedy := SortByLength(all);
    var complete := AtomsComplete(ids);
    var rank := RankMerges(merges);
    t := base.(tokenToId := ids, specials := specials, greedy := greedy, byteTokenId := byteIds,
               byteBpeComplete := complete, mergeRank := rank);
    SameLists(greedy, all, tokens);
    Assembled(base, raw, t);
  }

  // ----- Decoding

  ghost function DecodePiece(t: Tokenizer, token: int): Bytes
    requires |t.types| == |t.tokens|
  {
    if token < 0 || token >= |t.tokens| then []
    else
      var x := t.tokens[token];
      if IsSentencePiece(t) then
        if t.types[token] == BYTE && SpellsByte(x) then
          match t.hex(x[3..5])
          case None => []
          case Some(b) => [b % 256]
        else if t.types[token] == CONTROL then x
        else Unmark(x)
      else DecodeBytes(x)
  }

  ghost function DecodeAll(t: Tokenizer, ids: seq<int>): Bytes
    requires |t.types| == |t.tokens|
  {
    if |ids| == 0 then [] else DecodeAll(t, ids[..|ids| - 1]) + DecodePiece(t, ids[|ids| - 1])
  }

  /** The space that encoding put in front is taken off again. */
  ghost function StripPrefix(t: Tokenizer, s: Bytes): Bytes {
    if IsSentencePiece(t) && t.addSpacePrefix && |s| > 0 && s[0] == 32 then s[1..] else s
  }

  ghost function DecodeSpec(t: Tokenizer, ids: seq<int>): Bytes
    requires |t.types| == |t.tokens|
  {
    StripPrefix(t, DecodeAll(t, ids))
  }

  /** A SentencePiece control token comes out verbatim, a byte token as its byte, any other with spaces for markers. */
  lemma PieceIs(t: Tokenizer, id: nat)
    requires |t.types| == |t.tokens| && id < |t.tokens| && IsSentencePiece(t)
    ensures t.types[id] == 3 ==> DecodePiece(t, id) == t.tokens[id]
    ensures forall b: Byte :: IsByteToken(t, id, b) ==> DecodePiece(t, id) == [b]
    ensures t.types[id] != 3 && t.types[id] != 6 ==>
              DecodePiece(t, id) == Replace(t.tokens[id], [0xE2, 0x96, 0x81], [0x20])
  {
  }

  method DecodePieceOf(t: Tokenizer, token: int) returns (s: Bytes)
    requires |t.types| == |t.tokens|
    ensures s == DecodePiece(t, token)
  {
    if token < 0 || token >= |t.tokens| {
      return [];
    }
    var x := t.tokens[token];
    if IsSentencePiece(t) {
      if t.types[token] == BYTE && SpellsByte(x) {
        var b := t.hex(x[3..5]);
        if b.Some? {
          return [b.value % 256];
        }
        return [];
      }
      if t.types[token] == CONTROL {
        return x;
      }
      s := ReplaceAll(x, MARKER, SPACE);
    } else {
      s := DecodeBytesLoop(x);
    }
  }

  method Decode(t: Tokenizer, ids: seq<int>) returns (s: Bytes)
    requires |t.types| == |t.tokens|
    ensures s == DecodeSpec(t, ids)
  {
    s := [];
    for i := 0 to |ids|
      invariant s == DecodeAll(t, ids[..i])
    {
      var piece := DecodePieceOf(t, ids[i]);
      assert ids[..i + 1][..i] == ids[..i];
      s := s + piece;
    }
    assert ids[..|ids|] == ids;
    if IsSentencePiece(t) && t.addSpacePrefix && |s| > 0 && s[0] == 32 {
      s := s[1..];
    }
  }

  lemma DropLastOfSum(a: seq<int>, b: seq<int>)
    requires |b| > 0
    ensures var n := |a + b| - 1;
            (a + b)[..n] == a + b[..|b| - 1] && (a + b)[n] == b[|b| - 1]
  {
  }

  lemma {:induction false} DecodeAllAppend(t: Tokenizer, a: seq<int>, b: seq<int>)
    requires |t.types| == |t.tokens|
    ensures DecodeAll(t, a + b) == DecodeAll(t, a) + DecodeAll(t, b)
    decreases |b|
  {
    if |b| == 0 {
      assert a + b == a;
    } else {
      var n := |b| - 1;
      DecodeAllAppend(t, a, b[..n]);
      DropLastOfSum(a, b);
      Assoc(DecodeAll(t, a), DecodeAll(t, b[..n]), DecodePiece(t, b[n]));
    }
  }
}
