/** Byte strings: lenient UTF-8 units, substring replacement and the U+2581 marker. */
module ByteStrings {
  import opened Common

  // ----- Lenient UTF-8 units (section 3 of RFC 3629 for well-formed input; malformed bytes stand alone)

  datatype Unit = Unit(off: nat, len: nat, cp: nat)

  predicate Cont(s: Bytes, i: nat) {
    i < |s| && 128 <= s[i] < 192
  }

  function Code(s: Bytes, i: nat): (c: int)
    requires i < |s|
    ensures 0 <= c < 256
  {
    s[i]
  }

  /** The unit starting at p: a lead byte with all its continuation bytes, or one byte on its own. */
  function UnitAt(s: Bytes, p: nat): (u: Unit)
    requires p < |s|
    ensures u.off == p && 1 <= u.len <= 4 && p + u.len <= |s|
    ensures forall i :: p < i < p + u.len ==> Cont(s, i)
  {
    var c := Code(s, p);
    if c < 128 then Unit(p, 1, c)
    else if 192 <= c < 224 && Cont(s, p + 1) then
      Unit(p, 2, c % 32 * 64 + Code(s, p + 1) % 64)
    else if 224 <= c < 240 && Cont(s, p + 1) && Cont(s, p + 2) then
      Unit(p, 3, c % 16 * 4096 + Code(s, p + 1) % 64 * 64 + Code(s, p + 2) % 64)
    else if 240 <= c < 248 && Cont(s, p + 1) && Cont(s, p + 2) && Cont(s, p + 3) then
      Unit(p, 4, c % 8 * 262144 + Code(s, p + 1) % 64 * 4096 + Code(s, p + 2) % 64 * 64 + Code(s, p + 3) % 64)
    else Unit(p, 1, c)
  }

  /** The UTF-8 form of a code point (section 3 of RFC 3629). */
  function Rfc3629(cp: nat): Bytes
    requires cp < 0x110000
  {
    if cp < 0x80 then [cp]
    else if cp < 0x800 then [0xC0 + cp / 0x40, 0x80 + cp % 0x40]
    else if cp < 0x10000 then [0xE0 + cp / 0x1000, 0x80 + cp / 0x40 % 0x40, 0x80 + cp % 0x40]
    else [0xF0 + cp / 0x40000, 0x80 + cp / 0x1000 % 0x40, 0x80 + cp / 0x40 % 0x40, 0x80 + cp % 0x40]
  }

  lemma Sextets(cp: nat)
    requires cp < 0x110000
    ensures cp / 0x40000 * 262144 + cp / 0x1000 % 0x40 * 4096 + cp / 0x40 % 0x40 * 64 + cp % 0x40 == cp
    ensures cp / 0x40000 < 8 && cp < 0x10000 ==> cp / 0x1000 < 16
    ensures cp < 0x800 ==> cp / 0x40 < 32
  {
    assert cp == cp / 0x40 * 0x40 + cp % 0x40;
    assert cp / 0x40 == cp / 0x40 / 0x40 * 0x40 + cp / 0x40 % 0x40;
    assert cp / 0x40 / 0x40 == cp / 0x1000;
    assert cp / 0x1000 == cp / 0x1000 / 0x40 * 0x40 + cp / 0x1000 % 0x40;
    assert cp / 0x1000 / 0x40 == cp / 0x40000;
  }

  lemma UnitOfTwo(s: Bytes, p: nat, a: nat, b: nat)
    requires p + 2 <= |s| && a < 32 && b < 64 && s[p] == 0xC0 + a && s[p + 1] == 0x80 + b
    ensures UnitAt(s, p) == Unit(p, 2, a * 64 + b)
  {
  }

  lemma UnitOfThree(s: Bytes, p: nat, a: nat, b: nat, c: nat)
    requires p + 3 <= |s| && a < 16 && b < 64 && c < 64
    requires s[p] == 0xE0 + a && s[p + 1] == 0x80 + b && s[p + 2] == 0x80 + c
    ensures UnitAt(s, p) == Unit(p, 3, a * 4096 + b * 64 + c)
  {
  }

  lemma UnitOfFour(s: Bytes, p: nat, a: nat, b: nat, c: nat, d: nat)
    requires p + 4 <= |s| && a < 8 && b < 64 && c < 64 && d < 64
    requires s[p] == 0xF0 + a && s[p + 1] == 0x80 + b && s[p + 2] == 0x80 + c && s[p + 3] == 0x80 + d
    ensures UnitAt(s, p) == Unit(p, 4, a * 262144 + b * 4096 + c * 64 + d)
  {
  }

  predicate At(s: Bytes, p: nat, a: Bytes) {
    p + |a| <= |s| && s[p..p + |a|] == a
  }

  lemma AtBytes(s: Bytes, p: nat, x: Bytes)
    requires At(s, p, x)
    ensures p + |x| <= |s| && forall i :: 0 <= i < |x| ==> s[p + i] == x[i]
  {
    forall i | 0 <= i < |x|
      ensures s[p + i] == x[i]
    {
      assert s[p..p + |x|][i] == s[p + i];
    }
  }

  lemma UnitOfAscii(s: Bytes, p: nat)
    requires p < |s| && s[p] < 0x80
    ensures UnitAt(s, p) == Unit(p, 1, s[p])
  {
  }

  /** Well-formed input is read code point by code point. */
  lemma UnitOfCodePoint(s: Bytes, p: nat, cp: nat)
    requires cp < 0x110000 && At(s, p, Rfc3629(cp))
    ensures UnitAt(s, p) == Unit(p, |Rfc3629(cp)|, cp)
  {
    hide UnitAt, At;
    var x := Rfc3629(cp);
    Sextets(cp);
    AtBytes(s, p, x);
    assert s[p + 0] == x[0];
    if cp < 0x80 {
      UnitOfAscii(s, p);
    } else if cp < 0x800 {
      assert s[p + 1] == x[1];
      UnitOfTwo(s, p, cp / 0x40, cp % 0x40);
    } else if cp < 0x10000 {
      assert s[p + 1] == x[1] && s[p + 2] == x[2];
      UnitOfThree(s, p, cp / 0x1000, cp / 0x40 % 0x40, cp % 0x40);
    } else {
      assert s[p + 1] == x[1] && s[p + 2] == x[2] && s[p + 3] == x[3];
      UnitOfFour(s, p, cp / 0x40000, cp / 0x1000 % 0x40, cp / 0x40 % 0x40, cp % 0x40);
    }
  }

  /** A continuation byte has the form 10xxxxxx. */
  predicate Continues(s: Bytes, i: nat) {
    i < |s| && s[i] / 0x40 == 2
  }

  /** A byte stands alone unless it leads as many continuation bytes as it announces; then it is its own value. */
  lemma UnitLengthIs(s: Bytes, p: nat)
    requires p < |s|
    ensures UnitAt(s, p).len == 2 <==> 0xC0 <= s[p] <= 0xDF && Continues(s, p + 1)
    ensures UnitAt(s, p).len == 3 <==> 0xE0 <= s[p] <= 0xEF && Continues(s, p + 1) && Continues(s, p + 2)
    ensures UnitAt(s, p).len == 4 <==>
            0xF0 <= s[p] <= 0xF7 && Continues(s, p + 1) && Continues(s, p + 2) && Continues(s, p + 3)
    ensures UnitAt(s, p).len == 1 ==> UnitAt(s, p).cp == s[p]
  {
  }

  /** Scanning unit by unit from `from` stops at p. */
  ghost predicate Boundary(s: Bytes, from: nat, p: nat)
    decreases p - from
  {
    from == p || (from < p && from < |s| && Boundary(s, from + UnitAt(s, from).len, p))
  }

  lemma {:induction false} BoundaryStep(s: Bytes, from: nat, p: nat)
    requires Boundary(s, from, p) && p < |s|
    ensures Boundary(s, from, p + UnitAt(s, p).len)
    decreases p - from
  {
    if from != p {
      BoundaryStep(s, from + UnitAt(s, from).len, p);
    } else {
      assert Boundary(s, from + UnitAt(s, from).len, p + UnitAt(s, p).len);
    }
  }

  // ----- Substrings

  predicate Contains(s: Bytes, a: Bytes) {
    exists p :: 0 <= p <= |s| && At(s, p, a)
  }

  /** Left-to-right replacement of every non-overlapping occurrence. */
  function Replace(s: Bytes, a: Bytes, b: Bytes): Bytes
    requires |a| > 0
  {
    if |s| == 0 then []
    else if At(s, 0, a) then b + Replace(s[|a|..], a, b)
    else [s[0]] + Replace(s[1..], a, b)
  }

  /** std::string::find: the first occurrence at or after `from`. */
  method Find(s: Bytes, a: Bytes, from: nat) returns (p: Option<nat>)
    requires |a| > 0 && from <= |s|
    ensures p.None? ==> forall q :: from <= q <= |s| ==> !At(s, q, a)
    ensures p.Some? ==> from <= p.value && At(s, p.value, a) && forall q :: from <= q < p.value ==> !At(s, q, a)
  {
    var i := from;
    while i < |s|
      invariant from <= i <= |s|
      invariant forall q :: from <= q < i ==> !At(s, q, a)
    {
      if At(s, i, a) {
        return Some(i);
      }
      i := i + 1;
    }
    return None;
  }

  lemma Assoc(a: Bytes, b: Bytes, c: Bytes)
    ensures (a + b) + c == a + (b + c)
  {
  }

  lemma PeelPrefix(s: Bytes, n: nat)
    requires 0 < n <= |s|
    ensures s[..n] == [s[0]] + s[1..][..n - 1] && s[1..][n - 1..] == s[n..]
  {
  }

  lemma AtSuffix(s: Bytes, p: nat, a: Bytes, q: nat)
    requires p <= |s|
    ensures At(s[p..], q, a) <==> At(s, p + q, a)
  {
    if p + q + |a| <= |s| {
      assert s[p..][q..q + |a|] == s[p + q..p + q + |a|];
    }
  }

  /** Text before the first occurrence is copied. */
  lemma {:induction false} ReplaceSkip(s: Bytes, a: Bytes, b: Bytes, n: nat)
    requires |a| > 0 && n <= |s| && forall q :: 0 <= q < n ==> !At(s, q, a)
    ensures Replace(s, a, b) == s[..n] + Replace(s[n..], a, b)
    decreases n
  {
    if n == 0 {
      assert s[0..] == s;
    } else {
      var t := s[1..];
      forall q | 0 <= q < n - 1
        ensures !At(t, q, a)
      {
        AtSuffix(s, 1, a, q);
      }
      assert !At(s, 0, a);
      ReplaceSkip(t, a, b, n - 1);
      PeelPrefix(s, n);
      Assoc([s[0]], t[..n - 1], Replace(t[n - 1..], a, b));
    }
  }

  lemma SkipTo(s: Bytes, a: Bytes, b: Bytes, p: nat, q: nat)
    requires |a| > 0 && p <= q <= |s| && forall i :: p <= i < q ==> !At(s, i, a)
    ensures Replace(s[p..], a, b) == s[p..q] + Replace(s[q..], a, b)
  {
    var rest := s[p..];
    forall i | 0 <= i < q - p
      ensures !At(rest, i, a)
    {
      AtSuffix(s, p, a, i);
    }
    ReplaceSkip(rest, a, b, q - p);
    assert rest[q - p..] == s[q..];
    assert rest[..q - p] == s[p..q];
  }

  lemma ReplaceHit(s: Bytes, a: Bytes, b: Bytes, q: nat)
    requires |a| > 0 && q <= |s| && At(s, q, a)
    ensures Replace(s[q..], a, b) == b + Replace(s[q + |a|..], a, b)
  {
    var rest := s[q..];
    AtSuffix(s, q, a, 0);
    assert rest[|a|..] == s[q + |a|..];
  }

  lemma SpliceParts(s: Bytes, b: Bytes, q: nat, k: nat)
    requires q + k <= |s|
    ensures var next := s[..q] + b + s[q + k..];
            next[..q + |b|] == s[..q] + b && next[q + |b|..] == s[q + k..]
  {
  }

  lemma Regroup(s: Bytes, p: nat, q: nat, b: Bytes, tail: Bytes)
    requires p <= q <= |s|
    ensures (s[..q] + b) + tail == s[..p] + (s[p..q] + (b + tail))
  {
    assert s[..q] == s[..p] + s[p..q];
  }

  /** One round of the loop: the text rewritten so far grows past the replaced occurrence. */
  lemma ReplaceRound(s: Bytes, a: Bytes, b: Bytes, p: nat, q: nat, next: Bytes)
    requires |a| > 0 && p <= q <= |s| && At(s, q, a) && forall i :: p <= i < q ==> !At(s, i, a)
    requires next == s[..q] + b + s[q + |a|..]
    ensures next[..q + |b|] + Replace(next[q + |b|..], a, b) == s[..p] + Replace(s[p..], a, b)
  {
    SkipTo(s, a, b, p, q);
    ReplaceHit(s, a, b, q);
    SpliceParts(s, b, q, |a|);
    Regroup(s, p, q, b, Replace(s[q + |a|..], a, b));
  }

  /** The in-place loop: find, overwrite, continue after the inserted text. */
  method ReplaceAll(text: Bytes, a: Bytes, b: Bytes) returns (s: Bytes)
    requires |a| > 0
    ensures s == Replace(text, a, b)
  {
    s := text;
    var p := 0;
    assert text[0..] == text;
    var found := Find(s, a, p);
    while found.Some?
      invariant 0 <= p <= |s|
      invariant s[..p] + Replace(s[p..], a, b) == Replace(text, a, b)
      invariant found.None? ==> forall q :: p <= q <= |s| ==> !At(s, q, a)
      invariant found.Some? ==>
                  p <= found.value && At(s, found.value, a) && forall q :: p <= q < found.value ==> !At(s, q, a)
      decreases |s| - p, found.Some?
    {
      var q := found.value;
      var next := s[..q] + b + s[q + |a|..];
      ReplaceRound(s, a, b, p, q, next);
      s := next;
      p := q + |b|;
      found := Find(s, a, p);
    }
    SkipTo(s, a, b, p, |s|);
    assert s[|s|..] == [] && s[p..|s|] == s[p..];
    assert s[..p] + s[p..] == s;
  }

  // ----- The marker

  /** U+2581 in UTF-8, and the space it stands for. */
  const MARKER: Bytes := [226, 150, 129]
  const SPACE: Bytes := [32]

  function Mark(t: Bytes): Bytes {
    Replace(t, SPACE, MARKER)
  }

  function Unmark(s: Bytes): Bytes {
    Replace(s, MARKER, SPACE)
  }

  /** The first byte survives marking unless it is a space, which becomes the marker's lead byte. */
  lemma MarkHead(t: Bytes)
    requires |t| > 0
    ensures |Mark(t)| > 0 && Mark(t)[0] == if t[0] == 32 then 226 else t[0]
    ensures t[0] != 32 ==> !At(t, 0, SPACE)
  {
    assert At(t, 0, SPACE) <==> t[0] == 32 by {
      assert t[0..1] == [t[0]];
    }
  }

  /** Marking spaces cannot create a marker at the front of text that does not start with one. */
  lemma MarkFront(t: Bytes)
    requires |t| > 0 && t[0] != 32
    ensures At(Mark(t), 0, MARKER) ==> At(t, 0, MARKER)
  {
    MarkHead(t);
    var m, u := Mark(t), t[1..];
    assert m == [t[0]] + Mark(u);
    if At(m, 0, MARKER) {
      assert m[0] == 226 && m[1] == 150 && m[2] == 129;
      assert |u| > 0;
      MarkHead(u);
      var v := u[1..];
      assert Mark(u) == [u[0]] + Mark(v);
      assert |v| > 0;
      MarkHead(v);
      assert t[0..3] == MARKER;
    }
  }

  lemma MarkMarker(t: Bytes)
    requires At(t, 0, MARKER)
    ensures Mark(t) == MARKER + Mark(t[3..])
  {
    assert t[0] == 226 && t[1] == 150 && t[2] == 129;
    assert !At(t, 0, SPACE);
    var u := t[1..];
    assert u[0] == 150;
    assert !At(u, 0, SPACE);
    var v := u[1..];
    assert v[0] == 129;
    assert !At(v, 0, SPACE);
    assert v[1..] == t[3..];
    assert Mark(v) == [v[0]] + Mark(v[1..]);
    assert Mark(u) == [u[0]] + Mark(v);
    assert Mark(t) == [t[0]] + Mark(u);
  }

  /** What marking and unmarking do together: exactly the markers already in the text turn into spaces. */
  lemma {:induction false} UnmarkMark(t: Bytes)
    ensures Unmark(Mark(t)) == Unmark(t)
    decreases |t|
  {
    if |t| == 0 {
    } else if t[0] == 32 {
      UnmarkMark(t[1..]);
      assert t[0..1] == SPACE;
      assert Mark(t) == MARKER + Mark(t[1..]);
      assert At(Mark(t), 0, MARKER);
      assert Mark(t)[3..] == Mark(t[1..]);
      assert !At(t, 0, MARKER);
    } else if At(t, 0, MARKER) {
      MarkMarker(t);
      UnmarkMark(t[3..]);
      assert At(Mark(t), 0, MARKER);
      assert Mark(t)[3..] == Mark(t[3..]);
    } else {
      UnmarkMark(t[1..]);
      assert !At(t, 0, SPACE);
      MarkFront(t);
      assert Mark(t) == [t[0]] + Mark(t[1..]);
      assert Mark(t)[1..] == Mark(t[1..]);
    }
  }

  lemma ContainsTail(s: Bytes, a: Bytes)
    requires |s| > 0 && |a| > 0 && !At(s, 0, a)
    ensures Contains(s, a) <==> Contains(s[1..], a)
  {
    if p :| 0 <= p <= |s| && At(s, p, a) {
      AtSuffix(s, 1, a, p - 1);
    }
    if p :| 0 <= p <= |s[1..]| && At(s[1..], p, a) {
      AtSuffix(s, 1, a, p);
      assert At(s, p + 1, a);
    }
  }

  /** Unmarking shortens the text by two bytes per marker, so it is the identity exactly on marker-free text. */
  lemma {:induction false} UnmarkLength(s: Bytes)
    ensures |Unmark(s)| <= |s|
    ensures |Unmark(s)| == |s| <==> !Contains(s, MARKER)
    ensures !Contains(s, MARKER) ==> Unmark(s) == s
    decreases |s|
  {
    if |s| == 0 {
    } else if At(s, 0, MARKER) {
      UnmarkLength(s[3..]);
    } else {
      UnmarkLength(s[1..]);
      ContainsTail(s, MARKER);
    }
  }

  lemma AtPrefix(x: Bytes, y: Bytes, a: Bytes)
    ensures At(x, 0, a) ==> At(x + y, 0, a)
  {
    if At(x, 0, a) {
      assert (x + y)[..|a|] == x[..|a|];
    }
  }

  /** Unmarking distributes over a cut that no marker straddles. */
  lemma {:induction false} UnmarkConcat(x: Bytes, y: Bytes)
    requires forall q :: 0 <= q < |x| && At(x + y, q, MARKER) ==> q + 3 <= |x|
    ensures Unmark(x + y) == Unmark(x) + Unmark(y)
    decreases |x|
  {
    var s := x + y;
    if |x| == 0 {
      assert s == y;
    } else {
      var n := if At(s, 0, MARKER) then 3 else 1;
      var x' := x[n..];
      assert x' + y == s[n..];
      forall q | 0 <= q < |x'| && At(x' + y, q, MARKER)
        ensures q + 3 <= |x'|
      {
        AtSuffix(s, n, MARKER, q);
      }
      UnmarkConcat(x', y);
      if At(s, 0, MARKER) {
        assert x[..3] == s[..3];
      } else {
        AtPrefix(x, y, MARKER);
        assert s[0] == x[0];
      }
    }
  }

  /** A marker never crosses a unit boundary: its lead byte is not a continuation byte. */
  lemma {:induction false} MarkerInsideUnit(s: Bytes, from: nat, p: nat, q: nat)
    requires from <= q && At(s, q, MARKER) && Boundary(s, from, p) && q < p
    ensures q + 3 <= p
    decreases p - from
  {
    assert s[q..q + 3] == MARKER;
    assert s[q] == MARKER[0] && s[q + 1] == MARKER[1] && s[q + 2] == MARKER[2];
    var u := UnitAt(s, from);
    if from < q {
      assert !Cont(s, q);
      assert from + u.len <= q;
      MarkerInsideUnit(s, from + u.len, p, q);
    } else {
      assert Cont(s, q + 1) && Cont(s, q + 2) && u.len == 3;
    }
  }
}
