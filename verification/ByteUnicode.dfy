/** The GPT-2 byte/Unicode table: 256 byte values spelled as one- or two-byte UTF-8 atoms. */
module ByteUnicode {
  import opened Common
  import opened ByteStrings

  /** Printable bytes stand for themselves. */
  predicate Direct(b: int) {
    33 <= b <= 126 || 161 <= b <= 172 || 174 <= b <= 255
  }

  /** How many bytes below n are not printable. */
  function Rank(n: nat): (r: nat)
    ensures r <= n
  {
    if n == 0 then 0 else Rank(n - 1) + if Direct(n - 1) then 0 else 1
  }

  /** The others are numbered from 256 upwards, in order. */
  function CodePoint(b: nat): (cp: nat)
    requires b < 256
    ensures cp < 512
  {
    if Direct(b) then b else 256 + Rank(b)
  }

  lemma {:induction false} RankIs(n: nat)
    requires n <= 256
    ensures Rank(n) == if n <= 33 then n else if n <= 127 then 33 else if n <= 161 then n - 94
                       else if n <= 173 then 67 else 68
  {
    if n > 0 {
      RankIs(n - 1);
    }
  }

  /** The table: printable bytes keep their code, the others follow from U+0100 upwards. */
  lemma TableIs(b: nat)
    requires b < 256
    ensures CodePoint(b) == if b <= 32 then 0x100 + b else if b <= 126 then b else if b <= 160 then 0x121 + (b - 127)
                            else if b == 173 then 0x143 else b
  {
    RankIs(b);
  }

  function Utf8(cp: nat): Bytes
    requires cp < 0x10000
  {
    if cp <= 0x7f then [cp]
    else if cp <= 0x7ff then [192 + cp / 64, 128 + cp % 64]
    else [224 + cp / 4096, 128 + cp / 64 % 64, 128 + cp % 64]
  }

  function Atom(b: nat): Bytes
    requires b < 256
  {
    Utf8(CodePoint(b))
  }

  lemma Utf8Is(cp: nat)
    requires cp < 0x10000
    ensures Utf8(cp) == Rfc3629(cp)
  {
  }

  lemma {:induction false} RankMonotone(a: nat, b: nat)
    requires a <= b
    ensures Rank(a) <= Rank(b)
  {
    if a < b {
      RankMonotone(a, b - 1);
    }
  }

  lemma CodePointInjective(a: nat, b: nat)
    requires a < b < 256
    ensures CodePoint(a) != CodePoint(b)
  {
    if !Direct(a) && !Direct(b) {
      RankMonotone(a + 1, b);
    }
  }

  /** No two bytes share an atom: the table is a bijection onto its image. */
  lemma AtomInjective(a: nat, b: nat)
    requires a < 256 && b < 256 && Atom(a) == Atom(b)
    ensures a == b
  {
    var x, y := CodePoint(a), CodePoint(b);
    if x > 0x7f {
      assert Atom(a)[0] == 192 + x / 64 && Atom(a)[1] == 128 + x % 64;
      assert Atom(b)[0] == 192 + y / 64 && Atom(b)[1] == 128 + y % 64;
    } else {
      assert Atom(a)[0] == x;
    }
    assert x == y;
    if a < b {
      CodePointInjective(a, b);
    } else if b < a {
      CodePointInjective(b, a);
    }
  }

  /** An atom is one unit, whatever follows it. */
  lemma AtomIsUnit(b: nat, rest: Bytes)
    requires b < 256
    ensures UnitAt(Atom(b) + rest, 0).len == |Atom(b)|
    ensures (Atom(b) + rest)[..|Atom(b)|] == Atom(b) && (Atom(b) + rest)[|Atom(b)|..] == rest
  {
    var s := Atom(b) + rest;
    assert s[0] == Atom(b)[0];
    if CodePoint(b) > 0x7f {
      assert s[1] == Atom(b)[1];
    }
  }

  /** An ASCII byte is its own unit, and any atom that is one byte long spells itself. */
  lemma OneByteAtom(b: nat)
    requires b < 256
    ensures |Atom(b)| == 1 <==> 33 <= b <= 126
    ensures |Atom(b)| == 1 ==> Atom(b) == [b]
    ensures 1 <= |Atom(b)| <= 2
  {
  }

  /** The k-th printable byte. */
  function DirectAt(k: nat): nat {
    if k < 94 then 33 + k else if k < 106 then 161 + k - 94 else 174 + k - 106
  }

  method DirectBytes() returns (bs: seq<nat>)
    ensures forall b :: 0 <= b < 256 && Direct(b) ==> b in bs
    ensures forall k :: 0 <= k < |bs| ==> bs[k] < 256 && Direct(bs[k])
  {
    bs := [];
    for i := 33 to 127
      invariant |bs| == i - 33 && forall k :: 0 <= k < |bs| ==> bs[k] == DirectAt(k)
    {
      bs := bs + [i];
    }
    for i := 161 to 173
      invariant |bs| == 94 + i - 161 && forall k :: 0 <= k < |bs| ==> bs[k] == DirectAt(k)
    {
      bs := bs + [i];
    }
    for i := 174 to 256
      invariant |bs| == 106 + i - 174 && forall k :: 0 <= k < |bs| ==> bs[k] == DirectAt(k)
    {
      bs := bs + [i];
    }
    forall b | 0 <= b < 256 && Direct(b)
      ensures b in bs
    {
      var k := if b <= 126 then b - 33 else if b <= 172 then b - 161 + 94 else b - 174 + 106;
      assert bs[k] == b;
    }
  }

  /** Entry k of the two lists agrees with the table. */
  predicate Assigned(bs: seq<nat>, cs: seq<nat>, k: nat)
    requires k < |bs| == |cs|
  {
    bs[k] < 256 && cs[k] == CodePoint(bs[k])
  }

  predicate Covers(bs: seq<nat>, b: nat) {
    forall c: nat :: c < 256 && (Direct(c) || c < b) ==> c in bs
  }

  predicate Covered(bs: seq<nat>, b: nat) {
    forall c: nat :: c in bs ==> Direct(c) || c < b
  }

  lemma AppendAssigned(bs: seq<nat>, cs: seq<nat>, b: nat, cp: nat)
    requires |bs| == |cs| && forall k :: 0 <= k < |bs| ==> Assigned(bs, cs, k)
    requires b < 256 && cp == CodePoint(b)
    ensures forall k :: 0 <= k <= |bs| ==> Assigned(bs + [b], cs + [cp], k)
  {
    forall k | 0 <= k <= |bs|
      ensures Assigned(bs + [b], cs + [cp], k)
    {
      if k < |bs| {
        assert Assigned(bs, cs, k);
      }
    }
  }

  /** The printable bytes first, then every other byte with the next free code point. */
  method AssignCodePoints() returns (bs: seq<nat>, cs: seq<nat>)
    ensures |cs| == |bs|
    ensures forall k :: 0 <= k < |bs| ==> Assigned(bs, cs, k)
    ensures Covers(bs, 256)
  {
    bs := DirectBytes();
    cs := bs;
    var n := 0;
    for b := 0 to 256
      invariant |cs| == |bs| && n == Rank(b)
      invariant forall k :: 0 <= k < |bs| ==> Assigned(bs, cs, k)
      invariant Covers(bs, b) && Covered(bs, b)
    {
      if b !in bs {
        assert !Direct(b);
        AppendAssigned(bs, cs, b, 256 + n);
        bs := bs + [b];
        cs := cs + [256 + n];
        n := n + 1;
      }
    }
  }

  method MakeByteUnicode() returns (out: seq<Bytes>)
    ensures |out| == 256 && forall b :: 0 <= b < 256 ==> out[b] == Atom(b)
  {
    var bs, cs := AssignCodePoints();
    out := seq(256, _ => []);
    for i := 0 to |bs|
      invariant |out| == 256
      invariant forall k :: 0 <= k < i ==> bs[k] < 256 && out[bs[k]] == Atom(bs[k])
    {
      assert Assigned(bs, cs, i);
      out := out[bs[i] := Utf8(cs[i])];
    }
    forall b | 0 <= b < 256
      ensures out[b] == Atom(b)
    {
      assert b in bs;
      var k :| 0 <= k < |bs| && bs[k] == b;
    }
  }

  // ----- Encoding and decoding whole strings

  function EncodeBytes(raw: Bytes): Bytes {
    if |raw| == 0 then [] else Atom(raw[0]) + EncodeBytes(raw[1..])
  }

  predicate IsAtom(ch: Bytes) {
    exists b: Byte :: Atom(b) == ch
  }

  /** The byte an atom spells. */
  ghost function ByteOf(ch: Bytes): (b: Byte)
    requires IsAtom(ch)
    ensures Atom(b) == ch
  {
    var b: Byte :| Atom(b) == ch;
    b
  }

  lemma ByteOfAtom(b: Byte)
    ensures IsAtom(Atom(b)) && ByteOf(Atom(b)) == b
  {
    AtomInjective(b, ByteOf(Atom(b)));
  }

  ghost function DecodeUnit(ch: Bytes): Bytes {
    if IsAtom(ch) then [ByteOf(ch)] else ch
  }

  ghost function DecodeBytes(s: Bytes): Bytes {
    if |s| == 0 then []
    else
      var n := UnitAt(s, 0).len;
      DecodeUnit(s[..n]) + DecodeBytes(s[n..])
  }

  /** A unit is the same unit in any suffix that starts at it. */
  lemma UnitSuffix(s: Bytes, p: nat)
    requires p < |s|
    ensures UnitAt(s, p).len == UnitAt(s[p..], 0).len && UnitAt(s, p).cp == UnitAt(s[p..], 0).cp
  {
    var t := s[p..];
    assert forall i :: 0 <= i < |t| ==> t[i] == s[p + i];
    assert Cont(s, p + 1) <==> Cont(t, 1);
    assert Cont(s, p + 2) <==> Cont(t, 2);
    assert Cont(s, p + 3) <==> Cont(t, 3);
  }

  lemma TailOfSum(a: Bytes, b: Bytes)
    requires |a| > 0
    ensures (a + b)[1..] == a[1..] + b && (a + b)[0] == a[0]
  {
  }

  lemma {:induction false} EncodeAppend(a: Bytes, b: Bytes)
    ensures EncodeBytes(a + b) == EncodeBytes(a) + EncodeBytes(b)
    decreases |a|
  {
    if |a| == 0 {
      assert a + b == b;
    } else {
      EncodeAppend(a[1..], b);
      TailOfSum(a, b);
      Assoc(Atom(a[0]), EncodeBytes(a[1..]), EncodeBytes(b));
    }
  }

  method EncodeBytesLoop(raw: Bytes) returns (o: Bytes)
    ensures o == EncodeBytes(raw)
  {
    var m := MakeByteUnicode();
    o := [];
    for i := 0 to |raw|
      invariant o == EncodeBytes(raw[..i])
    {
      o := o + m[raw[i]];
      assert EncodeBytes([raw[i]]) == Atom(raw[i]);
      EncodeAppend(raw[..i], [raw[i]]);
      assert raw[..i + 1] == raw[..i] + [raw[i]];
    }
    assert raw[..|raw|] == raw;
  }

  /** The reverse table: every atom mapped to its byte. */
  method ReverseTable() returns (rev: map<Bytes, Byte>)
    ensures forall ch :: ch in rev ==> Atom(rev[ch]) == ch
    ensures forall b :: 0 <= b < 256 ==> Atom(b) in rev
  {
    var m := MakeByteUnicode();
    rev := map[];
    for i := 0 to 256
      invariant forall ch :: ch in rev ==> rev[ch] < i && Atom(rev[ch]) == ch
      invariant forall b :: 0 <= b < i ==> Atom(b) in rev
    {
      rev := rev[m[i] := i];
    }
  }

  lemma LookupIsDecodeUnit(rev: map<Bytes, Byte>, ch: Bytes)
    requires forall c :: c in rev ==> Atom(rev[c]) == c
    requires forall b :: 0 <= b < 256 ==> Atom(b) in rev
    ensures DecodeUnit(ch) == if ch in rev then [rev[ch]] else ch
  {
    if ch in rev {
      ByteOfAtom(rev[ch]);
    }
  }

  lemma SliceOfSuffix(s: Bytes, i: nat, n: nat)
    requires i + n <= |s|
    ensures s[i..][..n] == s[i..i + n] && s[i..][n..] == s[i + n..]
  {
  }

  lemma DecodeHead(t: Bytes, n: nat)
    requires |t| > 0 && n == UnitAt(t, 0).len
    ensures DecodeBytes(t) == DecodeUnit(t[..n]) + DecodeBytes(t[n..])
  {
  }

  lemma DecodeStep(s: Bytes, i: nat)
    requires i < |s|
    ensures var n := UnitAt(s, i).len;
            DecodeBytes(s[i..]) == DecodeUnit(s[i..i + n]) + DecodeBytes(s[i + n..])
  {
    hide UnitAt, DecodeUnit, DecodeBytes;
    UnitSuffix(s, i);
    SliceOfSuffix(s, i, UnitAt(s, i).len);
    DecodeHead(s[i..], UnitAt(s, i).len);
  }

  lemma DecodeRound(o: Bytes, s: Bytes, i: nat)
    requires i < |s|
    ensures var n := UnitAt(s, i).len;
            (o + DecodeUnit(s[i..i + n])) + DecodeBytes(s[i + n..]) == o + DecodeBytes(s[i..])
  {
    hide UnitAt, DecodeUnit, DecodeBytes;
    var n := UnitAt(s, i).len;
    DecodeStep(s, i);
    Assoc(o, DecodeUnit(s[i..i + n]), DecodeBytes(s[i + n..]));
  }

  method DecodeBytesLoop(s: Bytes) returns (o: Bytes)
    ensures o == DecodeBytes(s)
  {
    hide DecodeUnit;
    var rev := ReverseTable();
    o := [];
    var i := 0;
    assert s[0..] == s;
    while i < |s|
      invariant 0 <= i <= |s|
      invariant o + DecodeBytes(s[i..]) == DecodeBytes(s)
    {
      var u := UnitAt(s, i);
      var ch := s[i..i + u.len];
      DecodeRound(o, s, i);
      LookupIsDecodeUnit(rev, ch);
      var piece := if ch in rev then [rev[ch]] else ch;
      o := o + piece;
      i := i + u.len;
    }
  }

  lemma DecodeAtom(b: Byte, tail: Bytes)
    ensures DecodeBytes(Atom(b) + tail) == [b] + DecodeBytes(tail)
  {
    AtomIsUnit(b, tail);
    ByteOfAtom(b);
  }

  /** Decoding takes whole atoms off the front. */
  lemma {:induction false} DecodeAppend(raw: Bytes, rest: Bytes)
    ensures DecodeBytes(EncodeBytes(raw) + rest) == raw + DecodeBytes(rest)
    decreases |raw|
  {
    hide DecodeBytes, Atom;
    if |raw| == 0 {
      assert EncodeBytes(raw) + rest == rest;
    } else {
      DecodeAppend(raw[1..], rest);
      Assoc(Atom(raw[0]), EncodeBytes(raw[1..]), rest);
      DecodeAtom(raw[0], EncodeBytes(raw[1..]) + rest);
      Assoc([raw[0]], raw[1..], DecodeBytes(rest));
      assert raw == [raw[0]] + raw[1..];
    }
  }

  /** Every byte string survives the byte/Unicode spelling. */
  lemma DecodeEncode(raw: Bytes)
    ensures DecodeBytes(EncodeBytes(raw)) == raw
  {
    DecodeAppend(raw, []);
    assert EncodeBytes(raw) + [] == EncodeBytes(raw);
  }
}
