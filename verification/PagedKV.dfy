/**
 * The paged key/value cache: fixed-size pages allocated on demand, three storage formats, flat row-major pages.
 * It is proved to refine a map from position to the last written key and value.
 */
module PagedKV {
  import opened Common
  import opened Arithmetic
  import opened RealMath

  datatype KVType = F32 | F16 | Q8

  /** The half-precision conversion pair, whose bit layout is not modelled. */
  datatype Half = Half(enc: real -> int, dec: int -> real)

  datatype Page = Page(k32: seq<real>, v32: seq<real>, k16: seq<int>, v16: seq<int>,
                       k8: seq<int>, v8: seq<int>, ks: seq<real>, vs: seq<real>)

  datatype Geometry = Geometry(dim: nat, tokens: nat, ty: KVType, half: Half)

  datatype Cache = Cache(geo: Geometry, pages: seq<Option<Page>>)

  // ----- Layout

  /** A page has room for `tokens` rows in the arrays of its format. */
  predicate Shaped(g: Geometry, pg: Page) {
    var n := SlotOff(g.tokens, g.dim);
    && (g.ty == F32 ==> |pg.k32| == n && |pg.v32| == n)
    && (g.ty == F16 ==> |pg.k16| == n && |pg.v16| == n)
    && (g.ty == Q8 ==> |pg.k8| == n && |pg.v8| == n && |pg.ks| == g.tokens && |pg.vs| == g.tokens)
  }

  predicate ValidCache(c: Cache) {
    && c.geo.tokens > 0
    && |c.pages| <= U64_MAX
    && forall p :: 0 <= p < |c.pages| && c.pages[p].Some? ==> Shaped(c.geo, c.pages[p].value)
  }

  /** A freshly allocated page: value-initialised arrays. */
  function NewPage(g: Geometry): (pg: Page)
    ensures Shaped(g, pg)
  {
    var n := SlotOff(g.tokens, g.dim);
    var empty := Page([], [], [], [], [], [], [], []);
    match g.ty
    case F32 => empty.(k32 := seq(n, _ => 0.0), v32 := seq(n, _ => 0.0))
    case F16 => empty.(k16 := seq(n, _ => 0), v16 := seq(n, _ => 0))
    case Q8 => empty.(k8 := seq(n, _ => 0), v8 := seq(n, _ => 0),
                      ks := seq(g.tokens, _ => 0.0), vs := seq(g.tokens, _ => 0.0))
  }

  // ----- What a slot stands for: the values its stored row decodes to

  datatype Row = Row(k: seq<real>, v: seq<real>)

  function Halves(g: Geometry, s: seq<int>, off: nat): (r: seq<real>)
    requires off + g.dim <= |s|
    ensures |r| == g.dim
  {
    seq(g.dim, d requires 0 <= d < g.dim => g.half.dec(s[off + d]))
  }

  function Scaled(s: seq<int>, off: nat, dim: nat, scale: real): (r: seq<real>)
    requires off + dim <= |s|
    ensures |r| == dim
  {
    seq(dim, d requires 0 <= d < dim => Times(s[off + d] as real, scale))
  }

  function SlotRow(g: Geometry, pg: Page, i: nat): (r: Row)
    requires Shaped(g, pg) && i < g.tokens
    ensures |r.k| == g.dim && |r.v| == g.dim
  {
    SlotInPage(i, g.tokens, g.dim);
    var off := SlotOff(i, g.dim);
    match g.ty
    case F32 => Row(pg.k32[off..off + g.dim], pg.v32[off..off + g.dim])
    case F16 => Row(Halves(g, pg.k16, off), Halves(g, pg.v16, off))
    case Q8 => Row(Scaled(pg.k8, off, g.dim, pg.ks[i]), Scaled(pg.v8, off, g.dim, pg.vs[i]))
  }

  function ViewAt(c: Cache, p: nat, i: nat): (r: Option<Row>)
    requires ValidCache(c) && i < c.geo.tokens
    ensures r.Some? ==> |r.value.k| == c.geo.dim && |r.value.v| == c.geo.dim
  {
    if p < |c.pages| && c.pages[p].Some? then Some(SlotRow(c.geo, c.pages[p].value, i)) else None
  }

  /** The decoded row at a position, or None when its page was never allocated. */
  function View(c: Cache, pos: nat): (r: Option<Row>)
    requires ValidCache(c)
    ensures r.Some? ==> |r.value.k| == c.geo.dim && |r.value.v| == c.geo.dim
  {
    ViewAt(c, PageOf(pos, c.geo.tokens), RowOf(pos, c.geo.tokens))
  }

  // ----- What storing does to a row

  function ScaleOf(x: seq<real>): (s: real)
    ensures s > 0.0
  {
    var m := MaxAbs(x, 0, |x|);
    if m > 0.0 then m / 127.0 else 1.0
  }

  function Code(x: real, scale: real): int
    requires scale != 0.0
  {
    Clamp(RoundAway(x / scale), -127, 127)
  }

  /** The values that come back after storing x. */
  function Stored(g: Geometry, x: seq<real>): (r: seq<real>)
    requires |x| == g.dim
    ensures |r| == g.dim
  {
    match g.ty
    case F32 => x
    case F16 => seq(g.dim, d requires 0 <= d < g.dim => g.half.dec(g.half.enc(x[d])))
    case Q8 => seq(g.dim, d requires 0 <= d < g.dim => Times(Code(x[d], ScaleOf(x)) as real, ScaleOf(x)))
  }

  function StoredRow(g: Geometry, k: seq<real>, v: seq<real>): Row
    requires |k| == g.dim && |v| == g.dim
  {
    Row(Stored(g, k), Stored(g, v))
  }

  // ----- Writing

  function WriteSlice<T>(s: seq<T>, off: nat, row: seq<T>): (r: seq<T>)
    requires off + |row| <= |s|
    ensures |r| == |s|
    ensures forall i :: 0 <= i < |s| ==> r[i] == if off <= i < off + |row| then row[i - off] else s[i]
  {
    s[..off] + row + s[off + |row|..]
  }

  function Codes(x: seq<real>): (r: seq<int>)
    ensures |r| == |x|
  {
    seq(|x|, d requires 0 <= d < |x| => Code(x[d], ScaleOf(x)))
  }

  function Encoded(g: Geometry, x: seq<real>): (r: seq<int>)
    ensures |r| == |x|
  {
    seq(|x|, d requires 0 <= d < |x| => g.half.enc(x[d]))
  }

  function WritePage(g: Geometry, pg: Page, i: nat, k: seq<real>, v: seq<real>): (r: Page)
    requires Shaped(g, pg) && i < g.tokens && |k| == g.dim && |v| == g.dim
    ensures Shaped(g, r)
  {
    SlotInPage(i, g.tokens, g.dim);
    var off := SlotOff(i, g.dim);
    match g.ty
    case F32 => pg.(k32 := WriteSlice(pg.k32, off, k), v32 := WriteSlice(pg.v32, off, v))
    case F16 => pg.(k16 := WriteSlice(pg.k16, off, Encoded(g, k)), v16 := WriteSlice(pg.v16, off, Encoded(g, v)))
    case Q8 => pg.(k8 := WriteSlice(pg.k8, off, Codes(k)), v8 := WriteSlice(pg.v8, off, Codes(v)),
                   ks := pg.ks[i := ScaleOf(k)], vs := pg.vs[i := ScaleOf(v)])
  }

  predicate SameOrApart(off: nat, at: nat, n: nat, same: bool) {
    if same then at == off else at + n <= off || off + n <= at
  }

  /** Reading a row-sized slice after writing one: the same slice, or a disjoint one. */
  lemma ReadBack<T>(s: seq<T>, off: nat, row: seq<T>, at: nat, same: bool)
    requires off + |row| <= |s| && at + |row| <= |s|
    requires SameOrApart(off, at, |row|, same)
    ensures WriteSlice(s, off, row)[at..at + |row|] == if same then row else s[at..at + |row|]
  {
  }

  /** What a slot decodes to depends only on its slice. */
  lemma HalvesOf(g: Geometry, s: seq<int>, at: nat, part: seq<int>)
    requires at + g.dim <= |s| && part == s[at..at + g.dim]
    ensures Halves(g, s, at) == Halves(g, part, 0)
  {
  }

  lemma HalfReadBack(g: Geometry, s: seq<int>, off: nat, x: seq<real>, at: nat, same: bool)
    requires g.ty == F16 && |x| == g.dim && off + g.dim <= |s| && at + g.dim <= |s| && SameOrApart(off, at, g.dim, same)
    ensures Halves(g, WriteSlice(s, off, Encoded(g, x)), at) == if same then Stored(g, x) else Halves(g, s, at)
  {
    ReadBack(s, off, Encoded(g, x), at, same);
    var w := WriteSlice(s, off, Encoded(g, x));
    HalvesOf(g, w, at, w[at..at + g.dim]);
    HalvesOf(g, s, at, s[at..at + g.dim]);
  }

  lemma ScaledOf(s: seq<int>, at: nat, dim: nat, scale: real, part: seq<int>)
    requires at + dim <= |s| && part == s[at..at + dim]
    ensures Scaled(s, at, dim, scale) == Scaled(part, 0, dim, scale)
  {
  }

  lemma ScaledReadBack(g: Geometry, s: seq<int>, off: nat, x: seq<real>, at: nat, same: bool, scale: real)
    requires g.ty == Q8 && |x| == g.dim && off + g.dim <= |s| && at + g.dim <= |s| && SameOrApart(off, at, g.dim, same)
    requires same ==> scale == ScaleOf(x)
    ensures Scaled(WriteSlice(s, off, Codes(x)), at, g.dim, scale)
         == if same then Stored(g, x) else Scaled(s, at, g.dim, scale)
  {
    ReadBack(s, off, Codes(x), at, same);
    var w := WriteSlice(s, off, Codes(x));
    ScaledOf(w, at, g.dim, scale, w[at..at + g.dim]);
    ScaledOf(s, at, g.dim, scale, s[at..at + g.dim]);
  }

  /** The slots of two rows coincide or are disjoint. */
  lemma SlotsApart(g: Geometry, i: nat, j: nat)
    requires i < g.tokens && j < g.tokens
    ensures SlotOff(i, g.dim) + g.dim <= SlotOff(g.tokens, g.dim)
    ensures SlotOff(j, g.dim) + g.dim <= SlotOff(g.tokens, g.dim)
    ensures SameOrApart(SlotOff(i, g.dim), SlotOff(j, g.dim), g.dim, i == j)
  {
    hide SlotOff;
    SlotInPage(i, g.tokens, g.dim);
    SlotInPage(j, g.tokens, g.dim);
    if i < j {
      SlotInPage(i, j, g.dim);
    } else if j < i {
      SlotInPage(j, i, g.dim);
    }
  }

  lemma WritePageSlotsF32(g: Geometry, pg: Page, i: nat, k: seq<real>, v: seq<real>, j: nat)
    requires Shaped(g, pg) && i < g.tokens && j < g.tokens && |k| == g.dim && |v| == g.dim && g.ty == F32
    ensures SlotRow(g, WritePage(g, pg, i, k, v), j) == if i == j then StoredRow(g, k, v) else SlotRow(g, pg, j)
  {
    hide SlotOff;
    SlotsApart(g, i, j);
    ReadBack(pg.k32, SlotOff(i, g.dim), k, SlotOff(j, g.dim), i == j);
    ReadBack(pg.v32, SlotOff(i, g.dim), v, SlotOff(j, g.dim), i == j);
  }

  lemma WritePageSlotsF16(g: Geometry, pg: Page, i: nat, k: seq<real>, v: seq<real>, j: nat)
    requires Shaped(g, pg) && i < g.tokens && j < g.tokens && |k| == g.dim && |v| == g.dim && g.ty == F16
    ensures SlotRow(g, WritePage(g, pg, i, k, v), j) == if i == j then StoredRow(g, k, v) else SlotRow(g, pg, j)
  {
    hide SlotOff, Halves, Encoded, Stored;
    SlotsApart(g, i, j);
    HalfReadBack(g, pg.k16, SlotOff(i, g.dim), k, SlotOff(j, g.dim), i == j);
    HalfReadBack(g, pg.v16, SlotOff(i, g.dim), v, SlotOff(j, g.dim), i == j);
  }

  lemma WritePageSlotsQ8(g: Geometry, pg: Page, i: nat, k: seq<real>, v: seq<real>, j: nat)
    requires Shaped(g, pg) && i < g.tokens && j < g.tokens && |k| == g.dim && |v| == g.dim && g.ty == Q8
    ensures SlotRow(g, WritePage(g, pg, i, k, v), j) == if i == j then StoredRow(g, k, v) else SlotRow(g, pg, j)
  {
    hide SlotOff, Scaled, Codes, Stored, ScaleOf;
    SlotsApart(g, i, j);
    var ks, vs := if i == j then ScaleOf(k) else pg.ks[j], if i == j then ScaleOf(v) else pg.vs[j];
    ScaledReadBack(g, pg.k8, SlotOff(i, g.dim), k, SlotOff(j, g.dim), i == j, ks);
    ScaledReadBack(g, pg.v8, SlotOff(i, g.dim), v, SlotOff(j, g.dim), i == j, vs);
  }

  /** The written slot holds the stored row; every other slot of the page is untouched. */
  lemma WritePageSlots(g: Geometry, pg: Page, i: nat, k: seq<real>, v: seq<real>, j: nat)
    requires Shaped(g, pg) && i < g.tokens && j < g.tokens && |k| == g.dim && |v| == g.dim
    ensures SlotRow(g, WritePage(g, pg, i, k, v), j) == if i == j then StoredRow(g, k, v) else SlotRow(g, pg, j)
  {
    hide Shaped, SlotRow, WritePage, StoredRow;
    match g.ty {
      case F32 => WritePageSlotsF32(g, pg, i, k, v, j);
      case F16 => WritePageSlotsF16(g, pg, i, k, v, j);
      case Q8 => WritePageSlotsQ8(g, pg, i, k, v, j);
    }
  }

  /** A new page holds rows of stored zeros. */
  function ZeroRow(g: Geometry): Row {
    var z := if g.ty == F16 then g.half.dec(0) else 0.0;
    Row(seq(g.dim, _ => z), seq(g.dim, _ => z))
  }

  lemma TimesZero(x: real)
    ensures Times(0.0, x) == 0.0
  {
  }

  lemma NewPageSlots(g: Geometry, j: nat)
    requires j < g.tokens
    ensures SlotRow(g, NewPage(g), j) == ZeroRow(g)
  {
    SlotInPage(j, g.tokens, g.dim);
    TimesZero(0.0);
    var a, b := SlotRow(g, NewPage(g), j), ZeroRow(g);
    match g.ty
    case F32 => assert a.k == b.k && a.v == b.v;
    case F16 => assert a.k == b.k && a.v == b.v;
    case Q8 =>
      assert forall d :: 0 <= d < g.dim ==> a.k[d] == Times(0 as real, 0.0) && a.v[d] == Times(0 as real, 0.0);
      assert a.k == b.k && a.v == b.v;
  }

  /** Whether a write can succeed depends on the geometry and the position alone. */
  datatype Outcome = Written | NoPage | NoRoom

  function WriteOutcome(g: Geometry, pos: nat): Outcome
    requires g.tokens > 0
  {
    if PageOf(pos, g.tokens) == U64_MAX || SlotOff(g.tokens, g.dim) > U64_MAX then NoPage
    else if g.ty == F32 && g.dim * 4 > U64_MAX then NoRoom
    else Written
  }

  /** The page table grown to hold page p. */
  function Grown(c: Cache, p: nat): Cache {
    if p < |c.pages| then c else c.(pages := c.pages + seq(p + 1 - |c.pages|, _ => None))
  }

  /** Finds or allocates page p; the flag is false when a size computation overflows. */
  function EnsurePage(c: Cache, p: nat): (r: (Cache, bool))
    requires ValidCache(c) && p <= U64_MAX
    ensures ValidCache(r.0) && r.0.geo == c.geo
    ensures r.1 ==> p < |r.0.pages| && r.0.pages[p].Some?
  {
    if p >= |c.pages| && p == U64_MAX then (c, false)
    else
      var c1 := Grown(c, p);
      if c1.pages[p].Some? then (c1, true)
      else if SlotOff(c.geo.tokens, c.geo.dim) > U64_MAX then (c1, false)
      else (c1.(pages := c1.pages[p := Some(NewPage(c.geo))]), true)
  }

  function WriteSlot(c: Cache, p: nat, i: nat, k: seq<real>, v: seq<real>): (r: Cache)
    requires ValidCache(c) && p < |c.pages| && c.pages[p].Some? && i < c.geo.tokens
    requires |k| == c.geo.dim && |v| == c.geo.dim
    ensures ValidCache(r) && r.geo == c.geo
  {
    c.(pages := c.pages[p := Some(WritePage(c.geo, c.pages[p].value, i, k, v))])
  }

  /** Row i of page p. */
  function WriteAt(c: Cache, p: nat, i: nat, k: seq<real>, v: seq<real>): (r: (Cache, bool))
    requires ValidCache(c) && p <= U64_MAX && i < c.geo.tokens && |k| == c.geo.dim && |v| == c.geo.dim
    ensures ValidCache(r.0) && r.0.geo == c.geo
  {
    var (c1, ok) := EnsurePage(c, p);
    if !ok || (c.geo.ty == F32 && c.geo.dim * 4 > U64_MAX) then (c1, false)
    else (WriteSlot(c1, p, i, k, v), true)
  }

  function WriteSpec(c: Cache, pos: nat, k: seq<real>, v: seq<real>): (r: (Cache, bool))
    requires ValidCache(c) && pos <= U64_MAX && |k| == c.geo.dim && |v| == c.geo.dim
    ensures ValidCache(r.0) && r.0.geo == c.geo
  {
    WriteAt(c, PageOf(pos, c.geo.tokens), RowOf(pos, c.geo.tokens), k, v)
  }

  lemma EnsurePageView(c: Cache, p: nat, q: nat, j: nat)
    requires ValidCache(c) && p <= U64_MAX && j < c.geo.tokens
    ensures var r := EnsurePage(c, p);
            ViewAt(r.0, q, j)
            == if r.1 && q == p && ViewAt(c, q, j).None? then Some(ZeroRow(c.geo)) else ViewAt(c, q, j)
  {
    NewPageSlots(c.geo, j);
  }

  lemma WriteSlotView(c: Cache, p: nat, i: nat, k: seq<real>, v: seq<real>, q: nat, j: nat)
    requires ValidCache(c) && p < |c.pages| && c.pages[p].Some? && i < c.geo.tokens && j < c.geo.tokens
    requires |k| == c.geo.dim && |v| == c.geo.dim
    ensures ViewAt(WriteSlot(c, p, i, k, v), q, j) ==
              if q == p && j == i then Some(StoredRow(c.geo, k, v)) else ViewAt(c, q, j)
  {
    WritePageSlots(c.geo, c.pages[p].value, i, k, v, j);
  }

  lemma WriteAtView(c: Cache, p: nat, i: nat, k: seq<real>, v: seq<real>, q: nat, j: nat)
    requires ValidCache(c) && p <= U64_MAX && i < c.geo.tokens && j < c.geo.tokens
    requires |k| == c.geo.dim && |v| == c.geo.dim && WriteAt(c, p, i, k, v).1
    ensures ViewAt(WriteAt(c, p, i, k, v).0, q, j) ==
              if q == p && j == i then Some(StoredRow(c.geo, k, v))
              else if q == p && ViewAt(c, q, j).None? then Some(ZeroRow(c.geo))
              else ViewAt(c, q, j)
  {
    EnsurePageView(c, p, q, j);
    WriteSlotView(EnsurePage(c, p).0, p, i, k, v, q, j);
  }

  /** A write is read back at its own position; other positions at most come into existence as zeros. */
  lemma WriteView(c: Cache, pos: nat, k: seq<real>, v: seq<real>, at: nat)
    requires ValidCache(c) && pos <= U64_MAX && |k| == c.geo.dim && |v| == c.geo.dim
    requires WriteSpec(c, pos, k, v).1
    ensures View(WriteSpec(c, pos, k, v).0, at) ==
              if at == pos then Some(StoredRow(c.geo, k, v))
              else if PageOf(at, c.geo.tokens) == PageOf(pos, c.geo.tokens) && View(c, at).None? then
                Some(ZeroRow(c.geo))
              else View(c, at)
  {
    var n := c.geo.tokens;
    WriteAtView(c, PageOf(pos, n), RowOf(pos, n), k, v, PageOf(at, n), RowOf(at, n));
    if PageOf(at, n) == PageOf(pos, n) && RowOf(at, n) == RowOf(pos, n) {
      SamePlace(at, pos, n);
    }
  }

  /** A page that exists proves that its size did not overflow. */
  ghost predicate PagesFit(c: Cache) {
    forall p :: 0 <= p < |c.pages| && c.pages[p].Some? ==> SlotOff(c.geo.tokens, c.geo.dim) <= U64_MAX && p < U64_MAX
  }

  lemma WriteSucceeds(c: Cache, pos: nat, k: seq<real>, v: seq<real>)
    requires ValidCache(c) && PagesFit(c) && pos <= U64_MAX && |k| == c.geo.dim && |v| == c.geo.dim
    ensures WriteSpec(c, pos, k, v).1 <==> WriteOutcome(c.geo, pos) == Written
    ensures PagesFit(WriteSpec(c, pos, k, v).0)
  {
  }

  // ----- Refinement of a map

  datatype KeyValue = KeyValue(k: seq<real>, v: seq<real>)

  /** The abstract cache: the last row written at each position, and which pages have been allocated. */
  datatype Abstract = Abstract(rows: map<nat, KeyValue>, touched: set<nat>)

  datatype Op = Write(pos: nat, k: seq<real>, v: seq<real>) | Reset

  ghost predicate ValidOp(g: Geometry, op: Op) {
    op.Write? ==> op.pos <= U64_MAX && |op.k| == g.dim && |op.v| == g.dim
  }

  function AbstractStep(g: Geometry, a: Abstract, op: Op): Abstract
    requires g.tokens > 0
  {
    match op
    case Reset => Abstract(map[], {})
    case Write(pos, k, v) =>
      match WriteOutcome(g, pos)
      case Written => Abstract(a.rows[pos := KeyValue(k, v)], a.touched + {PageOf(pos, g.tokens)})
      case NoRoom => a.(touched := a.touched + {PageOf(pos, g.tokens)})
      case NoPage => a
  }

  function Step(c: Cache, op: Op): (r: Cache)
    requires ValidCache(c) && ValidOp(c.geo, op)
    ensures ValidCache(r) && r.geo == c.geo
  {
    match op
    case Reset => c.(pages := [])
    case Write(pos, k, v) => WriteSpec(c, pos, k, v).0
  }

  /** Position pos reads as its last write, as zeros on a page allocated for a neighbour, or not at all. */
  ghost predicate RefinesAt(c: Cache, a: Abstract, pos: nat)
    requires ValidCache(c)
  {
    && (pos in a.rows ==>
          |a.rows[pos].k| == c.geo.dim && |a.rows[pos].v| == c.geo.dim && PageOf(pos, c.geo.tokens) in a.touched)
    && View(c, pos) ==
         if pos in a.rows then Some(StoredRow(c.geo, a.rows[pos].k, a.rows[pos].v))
         else if PageOf(pos, c.geo.tokens) in a.touched then Some(ZeroRow(c.geo))
         else None
  }

  ghost predicate Refines(c: Cache, a: Abstract)
    requires ValidCache(c)
  {
    forall pos: nat :: RefinesAt(c, a, pos)
  }

  /** A write that fails has at most allocated its page. */
  lemma FailedWrite(c: Cache, pos: nat, k: seq<real>, v: seq<real>)
    requires ValidCache(c) && PagesFit(c) && pos <= U64_MAX && |k| == c.geo.dim && |v| == c.geo.dim
    requires WriteOutcome(c.geo, pos) != Written
    ensures WriteSpec(c, pos, k, v).0 == EnsurePage(c, PageOf(pos, c.geo.tokens)).0
    ensures EnsurePage(c, PageOf(pos, c.geo.tokens)).1 <==> WriteOutcome(c.geo, pos) == NoRoom
  {
  }

  lemma WriteRefinesAt(c: Cache, a: Abstract, op: Op, at: nat)
    requires ValidCache(c) && PagesFit(c) && ValidOp(c.geo, op) && op.Write? && RefinesAt(c, a, at)
    ensures RefinesAt(Step(c, op), AbstractStep(c.geo, a, op), at)
  {
    WriteSucceeds(c, op.pos, op.k, op.v);
    if WriteOutcome(c.geo, op.pos) == Written {
      WriteView(c, op.pos, op.k, op.v, at);
    } else {
      EnsurePageView(c, PageOf(op.pos, c.geo.tokens), PageOf(at, c.geo.tokens), RowOf(at, c.geo.tokens));
      FailedWrite(c, op.pos, op.k, op.v);
    }
  }

  lemma StepRefines(c: Cache, a: Abstract, op: Op)
    requires ValidCache(c) && PagesFit(c) && ValidOp(c.geo, op) && Refines(c, a)
    ensures PagesFit(Step(c, op)) && Refines(Step(c, op), AbstractStep(c.geo, a, op))
  {
    if op.Write? {
      WriteSucceeds(c, op.pos, op.k, op.v);
      forall at: nat
        ensures RefinesAt(Step(c, op), AbstractStep(c.geo, a, op), at)
      {
        WriteRefinesAt(c, a, op, at);
      }
    }
  }

  function Run(c: Cache, ops: seq<Op>): (r: Cache)
    requires ValidCache(c) && forall i :: 0 <= i < |ops| ==> ValidOp(c.geo, ops[i])
    ensures ValidCache(r) && r.geo == c.geo
  {
    if |ops| == 0 then c else Step(Run(c, ops[..|ops| - 1]), ops[|ops| - 1])
  }

  function AbstractRun(g: Geometry, ops: seq<Op>): Abstract
    requires g.tokens > 0
  {
    if |ops| == 0 then Abstract(map[], {}) else AbstractStep(g, AbstractRun(g, ops[..|ops| - 1]), ops[|ops| - 1])
  }

  /** Any page size, any sequence of writes and resets: the cache refines the map. */
  lemma {:induction false} RunRefines(g: Geometry, ops: seq<Op>)
    requires g.tokens > 0 && forall i :: 0 <= i < |ops| ==> ValidOp(g, ops[i])
    ensures PagesFit(Run(Cache(g, []), ops))
    ensures Refines(Run(Cache(g, []), ops), AbstractRun(g, ops))
  {
    if |ops| > 0 {
      RunRefines(g, ops[..|ops| - 1]);
      StepRefines(Run(Cache(g, []), ops[..|ops| - 1]), AbstractRun(g, ops[..|ops| - 1]), ops[|ops| - 1]);
    }
  }

  // ----- Reading

  /** The slice of n elements from `offset` on is inside the row. */
  predicate InRow(g: Geometry, offset: nat, n: nat) {
    offset + n <= g.dim
  }

  function DotKeySpec(c: Cache, pos: nat, offset: nat, q: seq<real>): Result<real>
    requires ValidCache(c)
  {
    if !InRow(c.geo, offset, |q|) then Err("KV key slice out of bounds")
    else
      match View(c, pos)
      case None => Err("KV key page missing")
      case Some(row) => Ok(Dot(q, 0, row.k, offset, |q|))
  }

  function Accumulate(out: seq<real>, alpha: real, v: seq<real>, offset: nat): (r: seq<real>)
    requires offset + |out| <= |v|
    ensures |r| == |out|
  {
    seq(|out|, d requires 0 <= d < |out| => out[d] + Times(alpha, v[offset + d]))
  }

  function AddValueSpec(c: Cache, pos: nat, offset: nat, alpha: real, out: seq<real>): Result<seq<real>>
    requires ValidCache(c)
  {
    if !InRow(c.geo, offset, |out|) then Err("KV value slice out of bounds")
    else
      match View(c, pos)
      case None => Err("KV value page missing")
      case Some(row) => Ok(Accumulate(out, alpha, row.v, offset))
  }

  // ----- Q8 error bounds

  lemma CodeRange(x: real, m: real, scale: real)
    requires scale > 0.0 && Times(127.0, scale) == m && -m <= x <= m
    ensures -127.0 <= x / scale <= 127.0
  {
    Quotient(x, scale);
    QuotientRange(x, scale, 127.0, x / scale);
    Negate(x / scale, scale);
    QuotientRange(-x, scale, 127.0, -(x / scale));
  }

  lemma CodeError(x: real, m: real, scale: real)
    requires m > 0.0 && scale == m / 127.0 && Abs(x) <= m
    ensures Code(x, scale) == RoundAway(x / scale)
    ensures Abs(Times(Code(x, scale) as real, scale) - x) <= m / 254.0
  {
    assert Times(127.0, scale) == m;
    CodeRange(x, m, scale);
    Quotient(x, scale);
    RoundedError(x, scale, x / scale, RoundAway(x / scale) as real);
  }

  lemma ZeroCode()
    ensures Code(0.0, 1.0) == 0 == RoundAway(0.0 / 1.0)
  {
  }

  /** Half a quantization step of a row: its largest magnitude over 254. */
  function HalfStepOf(x: seq<real>): real {
    MaxAbs(x, 0, |x|) / 254.0
  }

  /** In Q8 mode every stored value is within max|x|/254 of the written one; the clamp never acts. */
  lemma StoredNear(g: Geometry, x: seq<real>, d: nat)
    requires g.ty == Q8 && |x| == g.dim && d < g.dim
    ensures Code(x[d], ScaleOf(x)) == RoundAway(x[d] / ScaleOf(x))
    ensures Abs(Stored(g, x)[d] - x[d]) <= HalfStepOf(x)
  {
    var m := MaxAbs(x, 0, |x|);
    if m > 0.0 {
      CodeError(x[d], m, ScaleOf(x));
    } else {
      assert Abs(x[d]) <= 0.0;
      ZeroCode();
      TimesZero(1.0);
    }
  }

  lemma TimesCommutes(a: real, b: real)
    ensures Times(a, b) == Times(b, a)
  {
  }

  ghost predicate AllNear(w: seq<real>, x: seq<real>, err: real) {
    |w| == |x| && forall d :: 0 <= d < |w| ==> Abs(w[d] - x[d]) <= err
  }

  lemma StoredAllNear(g: Geometry, x: seq<real>)
    requires g.ty == Q8 && |x| == g.dim
    ensures AllNear(Stored(g, x), x, HalfStepOf(x))
  {
    forall d | 0 <= d < |x|
      ensures Abs(Stored(g, x)[d] - x[d]) <= HalfStepOf(x)
    {
      StoredNear(g, x, d);
    }
  }

  lemma {:induction false} DotOfNear(q: seq<real>, w: seq<real>, x: seq<real>, lo: nat, err: real, n: nat)
    requires n <= |q| && lo + n <= |w| && AllNear(w, x, err)
    ensures Abs(Dot(q, 0, w, lo, n) - Dot(q, 0, x, lo, n)) <= Times(err, AbsSum(q, 0, n))
  {
    if n > 0 {
      DotOfNear(q, w, x, lo, err, n - 1);
      OneSidedError(x[lo + n - 1], w[lo + n - 1], q[n - 1], err);
      TimesCommutes(x[lo + n - 1], q[n - 1]);
      TimesCommutes(w[lo + n - 1], q[n - 1]);
      TimesSum(err, AbsSum(q, 0, n - 1), Abs(q[n - 1]));
    }
  }

  /** The Q8 key read: within max|k|/254 times the sum of query magnitudes of the exact dot product. */
  lemma DotKeyError(g: Geometry, k: seq<real>, v: seq<real>, offset: nat, q: seq<real>)
    requires g.ty == Q8 && |k| == g.dim && |v| == g.dim && InRow(g, offset, |q|)
    ensures Abs(Dot(q, 0, StoredRow(g, k, v).k, offset, |q|) - Dot(q, 0, k, offset, |q|))
         <= Times(HalfStepOf(k), AbsSum(q, 0, |q|))
  {
    StoredAllNear(g, k);
    DotOfNear(q, Stored(g, k), k, offset, HalfStepOf(k), |q|);
  }

  /** The Q8 value read: each accumulated element is within |alpha| * max|v|/254 of the exact one. */
  lemma AddValueError(g: Geometry, k: seq<real>, v: seq<real>, offset: nat, alpha: real, out: seq<real>, d: nat)
    requires g.ty == Q8 && |k| == g.dim && |v| == g.dim && InRow(g, offset, |out|) && d < |out|
    ensures Abs(Accumulate(out, alpha, StoredRow(g, k, v).v, offset)[d] - Accumulate(out, alpha, v, offset)[d])
         <= Times(HalfStepOf(v), Abs(alpha))
  {
    StoredNear(g, v, offset + d);
    OneSidedError(v[offset + d], Stored(g, v)[offset + d], alpha, HalfStepOf(v));
    TimesCommutes(v[offset + d], alpha);
    TimesCommutes(Stored(g, v)[offset + d], alpha);
  }

  ghost predicate KeyNear(r: Result<real>, k: seq<real>, offset: nat, q: seq<real>) {
    && r.Ok? && offset + |q| <= |k|
    && Abs(r.value - Dot(q, 0, k, offset, |q|)) <= Times(HalfStepOf(k), AbsSum(q, 0, |q|))
  }

  lemma KeyReadNear(c: Cache, k: seq<real>, v: seq<real>, pos: nat, offset: nat, q: seq<real>)
    requires ValidCache(c) && c.geo.ty == Q8 && |k| == c.geo.dim && |v| == c.geo.dim && InRow(c.geo, offset, |q|)
    requires View(c, pos) == Some(StoredRow(c.geo, k, v))
    ensures KeyNear(DotKeySpec(c, pos, offset, q), k, offset, q)
  {
    DotKeyError(c.geo, k, v, offset, q);
  }

  /** After any run, reading a position's key in Q8 mode is that close to its last written key. */
  lemma KeyReadError(g: Geometry, ops: seq<Op>, pos: nat, offset: nat, q: seq<real>)
    requires g.ty == Q8 && g.tokens > 0 && InRow(g, offset, |q|)
    requires forall i :: 0 <= i < |ops| ==> ValidOp(g, ops[i])
    requires pos in AbstractRun(g, ops).rows
    ensures |AbstractRun(g, ops).rows[pos].k| == g.dim
    ensures KeyNear(DotKeySpec(Run(Cache(g, []), ops), pos, offset, q), AbstractRun(g, ops).rows[pos].k, offset, q)
  {
    RunRefines(g, ops);
    var c, a := Run(Cache(g, []), ops), AbstractRun(g, ops);
    assert RefinesAt(c, a, pos);
    KeyReadNear(c, a.rows[pos].k, a.rows[pos].v, pos, offset, q);
  }

  /** Every accumulated element is as close to the exact one as half a step of the value v allows. */
  ghost predicate ValueNear(r: Result<seq<real>>, v: seq<real>, offset: nat, alpha: real, out: seq<real>) {
    && r.Ok? && |r.value| == |out| && offset + |out| <= |v|
    && forall d :: 0 <= d < |out| ==>
         Abs(r.value[d] - Accumulate(out, alpha, v, offset)[d]) <= Times(HalfStepOf(v), Abs(alpha))
  }

  lemma ValueReadNear(c: Cache, k: seq<real>, v: seq<real>, pos: nat, offset: nat, alpha: real, out: seq<real>)
    requires ValidCache(c) && c.geo.ty == Q8 && |k| == c.geo.dim && |v| == c.geo.dim && InRow(c.geo, offset, |out|)
    requires View(c, pos) == Some(StoredRow(c.geo, k, v))
    ensures ValueNear(AddValueSpec(c, pos, offset, alpha, out), v, offset, alpha, out)
  {
    hide Accumulate, View, StoredRow;
    forall d | 0 <= d < |out|
      ensures Abs(Accumulate(out, alpha, StoredRow(c.geo, k, v).v, offset)[d] - Accumulate(out, alpha, v, offset)[d])
           <= Times(HalfStepOf(v), Abs(alpha))
    {
      AddValueError(c.geo, k, v, offset, alpha, out, d);
    }
  }

  /** After any run, accumulating a position's value in Q8 mode is that close to using its last written value. */
  lemma ValueReadError(g: Geometry, ops: seq<Op>, pos: nat, offset: nat, alpha: real, out: seq<real>)
    requires g.ty == Q8 && g.tokens > 0 && InRow(g, offset, |out|)
    requires forall i :: 0 <= i < |ops| ==> ValidOp(g, ops[i])
    requires pos in AbstractRun(g, ops).rows
    ensures |AbstractRun(g, ops).rows[pos].v| == g.dim
    ensures ValueNear(AddValueSpec(Run(Cache(g, []), ops), pos, offset, alpha, out),
                      AbstractRun(g, ops).rows[pos].v, offset, alpha, out)
  {
    RunRefines(g, ops);
    var c, a := Run(Cache(g, []), ops), AbstractRun(g, ops);
    assert RefinesAt(c, a, pos);
    ValueReadNear(c, a.rows[pos].k, a.rows[pos].v, pos, offset, alpha, out);
  }

  // ----- The cache object

  lemma ScaleStep(sum: real, q: real, c: real, scale: real)
    ensures Times(sum + Times(q, c), scale) == Times(sum, scale) + Times(q, Times(c, scale))
  {
    Distribute(sum, q * c, scale);
    Reassociate(q, c, scale);
  }

  lemma ScaleAlpha(alpha: real, scale: real, c: real)
    ensures Times(Times(alpha, scale), c) == Times(alpha, Times(c, scale))
  {
    Reassociate(alpha, scale, c);
  }

  method MaxMagnitudes(k: seq<real>, v: seq<real>) returns (km: real, vm: real)
    requires |k| == |v|
    ensures km == MaxAbs(k, 0, |k|) && vm == MaxAbs(v, 0, |v|)
  {
    km, vm := 0.0, 0.0;
    for d := 0 to |k|
      invariant km == MaxAbs(k, 0, d) && vm == MaxAbs(v, 0, d)
    {
      km := MaxReal(km, Abs(k[d]));
      vm := MaxReal(vm, Abs(v[d]));
    }
  }

  /** The slice of s at off holds the first d elements of row; the rest of s is as before. */
  ghost predicate PartlyWritten(s: seq<int>, before: seq<int>, off: nat, row: seq<int>, d: nat)
    requires off + |row| <= |before| && d <= |row|
  {
    |s| == |before| && forall i :: 0 <= i < |s| ==> s[i] == if off <= i < off + d then row[i - off] else before[i]
  }

  lemma WholeWritten(s: seq<int>, before: seq<int>, off: nat, row: seq<int>)
    requires off + |row| <= |before| && PartlyWritten(s, before, off, row, |row|)
    ensures s == WriteSlice(before, off, row)
  {
  }

  /** The first d elements of the output slice have received their terms. */
  ghost predicate Added(now: seq<real>, before: seq<real>, base: nat, d: nat, alpha: real, v: seq<real>, offset: nat)
    requires base + d <= |before| && offset + d <= |v|
  {
    && |now| == |before|
    && forall j :: 0 <= j < |before| ==>
         now[j] == if base <= j < base + d then before[j] + Times(alpha, v[offset + j - base]) else before[j]
  }

  lemma AddedAll(now: seq<real>, before: seq<real>, base: nat, n: nat, alpha: real, v: seq<real>, offset: nat)
    requires base + n <= |before| && offset + n <= |v| && Added(now, before, base, n, alpha, v, offset)
    ensures now == before[..base] + Accumulate(before[base..base + n], alpha, v, offset) + before[base + n..]
  {
  }

  class PagedKVCache {
    const geo: Geometry
    var pages: seq<Option<Page>>

    ghost function Value(): Cache
      reads this
    {
      Cache(geo, pages)
    }

    ghost predicate Valid()
      reads this
    {
      ValidCache(Value())
    }

    constructor (d: nat, p: nat, ty: KVType, half: Half)
      ensures Valid() && Value() == Cache(Geometry(d, if p == 0 then 128 else p, ty, half), [])
    {
      geo := Geometry(d, if p == 0 then 128 else p, ty, half);
      pages := [];
    }

    method Reset()
      requires Valid()
      modifies this
      ensures Valid() && Value() == Step(old(Value()), Op.Reset)
    {
      pages := [];
    }

    method Ensure(p: nat) returns (r: Result<Page>)
      requires Valid() && p <= U64_MAX
      modifies this
      ensures Valid() && Value() == EnsurePage(old(Value()), p).0
      ensures r.Ok? <==> EnsurePage(old(Value()), p).1
      ensures r.Ok? ==> p < |pages| && pages[p] == Some(r.value)
    {
      if p >= |pages| {
        if p == U64_MAX {
          return Err("KV page index overflow");
        }
        pages := pages + seq(p + 1 - |pages|, _ => None);
      }
      if pages[p].None? {
        SlotOffIsProduct(geo.tokens, geo.dim);
        if geo.tokens * geo.dim > U64_MAX {
          return Err("KV page element count overflow");
        }
        pages := pages[p := Some(NewPage(geo))];
      }
      return Ok(pages[p].value);
    }

    method StoreHalves(k16: seq<int>, v16: seq<int>, off: nat, k: seq<real>, v: seq<real>)
      returns (k': seq<int>, v': seq<int>)
      requires |k| == |v| == geo.dim && off + geo.dim <= |k16| && off + geo.dim <= |v16|
      ensures k' == WriteSlice(k16, off, Encoded(geo, k)) && v' == WriteSlice(v16, off, Encoded(geo, v))
    {
      k', v' := k16, v16;
      for d := 0 to geo.dim
        invariant PartlyWritten(k', k16, off, Encoded(geo, k), d) && PartlyWritten(v', v16, off, Encoded(geo, v), d)
      {
        k' := k'[off + d := geo.half.enc(k[d])];
        v' := v'[off + d := geo.half.enc(v[d])];
      }
      WholeWritten(k', k16, off, Encoded(geo, k));
      WholeWritten(v', v16, off, Encoded(geo, v));
    }

    method StoreCodes(k8: seq<int>, v8: seq<int>, off: nat, k: seq<real>, v: seq<real>, ks: real, vs: real)
      returns (k': seq<int>, v': seq<int>)
      requires |k| == |v| == geo.dim && off + geo.dim <= |k8| && off + geo.dim <= |v8|
      requires ks == ScaleOf(k) && vs == ScaleOf(v)
      ensures k' == WriteSlice(k8, off, Codes(k)) && v' == WriteSlice(v8, off, Codes(v))
    {
      k', v' := k8, v8;
      for d := 0 to geo.dim
        invariant PartlyWritten(k', k8, off, Codes(k), d) && PartlyWritten(v', v8, off, Codes(v), d)
      {
        k' := k'[off + d := Clamp(RoundAway(k[d] / ks), -127, 127)];
        v' := v'[off + d := Clamp(RoundAway(v[d] / vs), -127, 127)];
      }
      WholeWritten(k', k8, off, Codes(k));
      WholeWritten(v', v8, off, Codes(v));
    }

    /** Row i of a page, in the page's format. */
    method StoreRow(pg: Page, i: nat, k: seq<real>, v: seq<real>) returns (pg': Page)
      requires Shaped(geo, pg) && i < geo.tokens && |k| == geo.dim && |v| == geo.dim
      ensures pg' == WritePage(geo, pg, i, k, v)
    {
      SlotOffIsProduct(i, geo.dim);
      SlotInPage(i, geo.tokens, geo.dim);
      var off := i * geo.dim;
      match geo.ty {
        case F32 =>
          pg' := pg.(k32 := pg.k32[..off] + k + pg.k32[off + geo.dim..],
                    v32 := pg.v32[..off] + v + pg.v32[off + geo.dim..]);
        case F16 =>
          var k', v' := StoreHalves(pg.k16, pg.v16, off, k, v);
          pg' := pg.(k16 := k', v16 := v');
        case Q8 =>
          var km, vm := MaxMagnitudes(k, v);
          var ks := if km > 0.0 then km / 127.0 else 1.0;
          var vs := if vm > 0.0 then vm / 127.0 else 1.0;
          var k', v' := StoreCodes(pg.k8, pg.v8, off, k, v, ks, vs);
          pg' := pg.(k8 := k', v8 := v', ks := pg.ks[i := ks], vs := pg.vs[i := vs]);
      }
    }

    method Write(pos: nat, k: seq<real>, v: seq<real>) returns (r: Result<()>)
      requires Valid() && pos <= U64_MAX && |k| == geo.dim && |v| == geo.dim
      modifies this
      ensures Valid() && Value() == WriteSpec(old(Value()), pos, k, v).0
      ensures r.Ok? <==> WriteSpec(old(Value()), pos, k, v).1
    {
      PageRowAreDivMod(pos, geo.tokens);
      var p, i := pos / geo.tokens, pos % geo.tokens;
      var page := Ensure(p);
      if page.Err? {
        return Err(page.error);
      }
      if geo.ty == F32 && geo.dim * 4 > U64_MAX {
        return Err("KV copy size overflow");
      }
      var pg := StoreRow(page.value, i, k, v);
      pages := pages[p := Some(pg)];
      return Ok(());
    }

    method DotF32(s: seq<real>, off: nat, q: seq<real>, ghost offset: nat) returns (sum: real)
      requires offset <= off && InRow(geo, offset, |q|) && off - offset + geo.dim <= |s|
      ensures sum == Dot(q, 0, s[off - offset..off - offset + geo.dim], offset, |q|)
    {
      sum := 0.0;
      ghost var row := s[off - offset..off - offset + geo.dim];
      for d := 0 to |q|
        invariant sum == Dot(q, 0, row, offset, d)
      {
        sum := sum + Times(q[d], s[off + d]);
      }
    }

    method DotF16(s: seq<int>, off: nat, q: seq<real>, ghost offset: nat) returns (sum: real)
      requires offset <= off && InRow(geo, offset, |q|) && off - offset + geo.dim <= |s|
      ensures sum == Dot(q, 0, Halves(geo, s, off - offset), offset, |q|)
    {
      sum := 0.0;
      ghost var row := Halves(geo, s, off - offset);
      for d := 0 to |q|
        invariant sum == Dot(q, 0, row, offset, d)
      {
        sum := sum + Times(q[d], geo.half.dec(s[off + d]));
      }
    }

    method DotQ8(s: seq<int>, off: nat, q: seq<real>, scale: real, ghost offset: nat) returns (sum: real)
      requires offset <= off && InRow(geo, offset, |q|) && off - offset + geo.dim <= |s|
      ensures sum == Dot(q, 0, Scaled(s, off - offset, geo.dim, scale), offset, |q|)
    {
      sum := 0.0;
      ghost var row := Scaled(s, off - offset, geo.dim, scale);
      TimesZero(scale);
      for d := 0 to |q|
        invariant Times(sum, scale) == Dot(q, 0, row, offset, d)
      {
        ScaleStep(sum, q[d], s[off + d] as real, scale);
        assert row[offset + d] == Times(s[off + d] as real, scale);
        sum := sum + Times(q[d], s[off + d] as real);
      }
      sum := Times(sum, scale);
    }

    method DotKey(pos: nat, offset: nat, q: seq<real>) returns (r: Result<real>)
      requires Valid()
      ensures r == DotKeySpec(Value(), pos, offset, q)
    {
      if offset > geo.dim || |q| > geo.dim - offset {
        return Err("KV key slice out of bounds");
      }
      PageRowAreDivMod(pos, geo.tokens);
      var p, i := pos / geo.tokens, pos % geo.tokens;
      if p >= |pages| || pages[p].None? {
        return Err("KV key page missing");
      }
      var pg := pages[p].value;
      SlotOffIsProduct(i, geo.dim);
      SlotInPage(i, geo.tokens, geo.dim);
      var off := i * geo.dim + offset;
      ghost var row := SlotRow(geo, pg, i);
      var sum: real;
      match geo.ty {
        case F32 => sum := DotF32(pg.k32, off, q, offset);
        case F16 => sum := DotF16(pg.k16, off, q, offset);
        case Q8 => sum := DotQ8(pg.k8, off, q, pg.ks[i], offset);
      }
      return Ok(sum);
    }

    function ValueCell(pg: Page, at: nat): real
      requires Shaped(geo, pg) && at < SlotOff(geo.tokens, geo.dim)
    {
      match geo.ty
      case F32 => pg.v32[at]
      case F16 => geo.half.dec(pg.v16[at])
      case Q8 => pg.v8[at] as real
    }

    function ValueScale(pg: Page, i: nat, alpha: real): real
      requires Shaped(geo, pg) && i < geo.tokens
    {
      if geo.ty == Q8 then Times(alpha, pg.vs[i]) else alpha
    }

    lemma ScaledCell(pg: Page, i: nat, d: nat, alpha: real)
      requires Shaped(geo, pg) && i < geo.tokens && d < geo.dim
      ensures SlotOff(i, geo.dim) + d < SlotOff(geo.tokens, geo.dim)
      ensures Times(ValueScale(pg, i, alpha), ValueCell(pg, SlotOff(i, geo.dim) + d))
              == Times(alpha, SlotRow(geo, pg, i).v[d])
    {
      SlotInPage(i, geo.tokens, geo.dim);
      if geo.ty == Q8 {
        ScaleAlpha(alpha, pg.vs[i], pg.v8[SlotOff(i, geo.dim) + d] as real);
      }
    }

    method AddCells(pg: Page, i: nat, off: nat, offset: nat, alpha: real, out: array<real>, base: nat, n: nat)
      requires Shaped(geo, pg) && i < geo.tokens && off == SlotOff(i, geo.dim) + offset && InRow(geo, offset, n)
      requires base + n <= out.Length
      modifies out
      ensures Added(out[..], old(out[..]), base, n, alpha, SlotRow(geo, pg, i).v, offset)
    {
      ghost var v := SlotRow(geo, pg, i).v;
      var scale := ValueScale(pg, i, alpha);
      for d := 0 to n
        invariant Added(out[..], old(out[..]), base, d, alpha, v, offset)
      {
        ScaledCell(pg, i, offset + d, alpha);
        out[base + d] := out[base + d] + Times(scale, ValueCell(pg, off + d));
      }
    }

    /** Adds alpha times the value slice to out[base..base+n], in place. */
    method AddValue(pos: nat, offset: nat, alpha: real, out: array<real>, base: nat, n: nat) returns (r: Result<()>)
      requires Valid() && base + n <= out.Length
      modifies out
      ensures var spec := AddValueSpec(Value(), pos, offset, alpha, old(out[base..base + n]));
              && (r.Ok? <==> spec.Ok?)
              && (r.Err? ==> out[..] == old(out[..]) && r.error == spec.error)
              && (r.Ok? ==> out[..] == old(out[..base]) + spec.value + old(out[base + n..]))
    {
      if offset > geo.dim || n > geo.dim - offset {
        return Err("KV value slice out of bounds");
      }
      PageRowAreDivMod(pos, geo.tokens);
      var p, i := pos / geo.tokens, pos % geo.tokens;
      if p >= |pages| || pages[p].None? {
        return Err("KV value page missing");
      }
      var pg := pages[p].value;
      SlotOffIsProduct(i, geo.dim);
      SlotInPage(i, geo.tokens, geo.dim);
      var off := i * geo.dim + offset;
      ghost var row := SlotRow(geo, pg, i);
      AddCells(pg, i, off, offset, alpha, out, base, n);
      AddedAll(out[..], old(out[..]), base, n, alpha, row.v, offset);
      return Ok(());
    }
  }
}
