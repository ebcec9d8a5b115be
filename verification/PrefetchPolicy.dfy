/**
 * The adaptive look-ahead depth: it backs off under pressure, probes one step deeper after a stable stretch, and keeps
 * or rejects the probe on the next observation.
 */
module PrefetchPolicy {
  import opened Common

  datatype Adjustment = NoChange | Up | Down

  datatype Config = Config(minDepth: nat, maxDepth: nat, low: real, high: real)

  /** One observation window. A latency that is not finite is None. */
  datatype Window = Window(latency: Option<real>, consumed: nat, useful: nat, late: nat, budgetSkips: nat,
                           evictions: nat, peakInflight: nat, inflightLimit: nat)

  /** The controller's fields. None stands for an infinite reference. */
  datatype Controller = Controller(config: Config, depth: nat, stable: nat, cooldown: nat, probeFrom: nat,
                                   rejectedFrom: nat, previousEvictions: nat, previous: Option<real>, probeRef: real,
                                   rejectedRef: Option<real>, probing: bool, blocked: bool)

  function ClampReal(x: real, lo: real, hi: real): real {
    if x < lo then lo else if hi < x then hi else x
  }

  function ClampNat(x: nat, lo: nat, hi: nat): nat {
    if x < lo then lo else if hi < x then hi else x
  }

  function Sane(c: Config): Config {
    var low := ClampReal(c.low, 0.0, 1.0);
    var min := if c.minDepth == 0 then 1 else c.minDepth;
    Config(min, if c.maxDepth < min then min else c.maxDepth, low, ClampReal(c.high, low, 1.0))
  }

  /** The corrections give a sound configuration. */
  lemma SaneIs(c: Config)
    ensures var r := Sane(c);
            && r.minDepth == Max(1, c.minDepth) && r.maxDepth == Max(r.minDepth, c.maxDepth)
            && 0.0 <= r.low <= r.high <= 1.0
            && (0.0 <= c.low <= 1.0 ==> r.low == c.low) && (r.low <= c.high <= 1.0 ==> r.high == c.high)
  {
  }

  function Start(config: Config, initialDepth: nat): Controller {
    var c := Sane(config);
    var d := ClampNat(initialDepth, c.minDepth, c.maxDepth);
    Controller(c, d, 0, 0, d, 0, 0, None, 0.0, None, false, false)
  }

  // ----- The signals of a window

  predicate Usable(w: Window) {
    w.latency.Some? && w.latency.value >= 0.0
  }

  function UsefulRatio(w: Window): real {
    if w.consumed > 0 then w.useful as real / w.consumed as real else 1.0
  }

  predicate LowUse(s: Controller, w: Window) {
    w.consumed >= 2 && UsefulRatio(w) < s.config.low
  }

  predicate HighUse(s: Controller, w: Window) {
    w.consumed >= 2 && UsefulRatio(w) >= s.config.high
  }

  predicate EvictionPressure(s: Controller, w: Window) {
    w.evictions > s.previousEvictions && w.consumed >= 2 && !HighUse(s, w)
  }

  predicate HardPressure(s: Controller, w: Window) {
    EvictionPressure(s, w) || w.budgetSkips > 0 || LowUse(s, w)
  }

  predicate Slower(s: Controller, w: Window)
    requires Usable(w)
  {
    s.previous.Some? && w.latency.value > s.previous.value * 1.05
  }

  predicate Steady(s: Controller, w: Window)
    requires Usable(w)
  {
    s.previous.Some? && w.latency.value <= s.previous.value * 1.01
  }

  predicate ByteHeadroom(w: Window) {
    w.inflightLimit == U64_MAX || (w.inflightLimit > 0 && w.peakInflight < w.inflightLimit - w.inflightLimit / 4)
  }

  /** The running probe is rejected by this window. */
  predicate Rejects(s: Controller, w: Window)
    requires Usable(w)
  {
    s.probing && (HardPressure(s, w) || w.latency.value > s.probeRef * 1.005)
  }

  /** This window shows, at the depth where a probe was rejected, that the phase has changed. */
  predicate Reopens(s: Controller, w: Window)
    requires Usable(w)
  {
    s.blocked && s.depth == s.rejectedFrom && s.rejectedRef.Some? && w.latency.value > s.rejectedRef.value * 1.05
  }

  // ----- One observation

  function NextStable(s: Controller, w: Window): nat
    requires Usable(w)
  {
    if Steady(s, w) && HighUse(s, w) && w.late > 0 then (s.stable + 1) % U32_LIMIT else 0
  }

  function Settled(s: Controller, w: Window): Controller
    requires Usable(w)
  {
    var calm := s.(previous := Some(w.latency.value), cooldown := if s.cooldown > 0 then s.cooldown - 1 else 0,
                   stable := NextStable(s, w));
    if Reopens(s, w) then calm.(blocked := false, cooldown := Max(calm.cooldown, 2), stable := 0) else calm
  }

  /** After the bookkeeping of a calm window: may the controller probe one step deeper? */
  predicate MayProbe(s: Controller, w: Window)
    requires Usable(w)
  {
    && s.stable >= 2 && s.cooldown == 0 && HighUse(s, w) && w.late > 0 && ByteHeadroom(w)
    && !(s.blocked && s.depth == s.rejectedFrom) && s.depth < s.config.maxDepth
  }

  /** The verdict on a running probe: back to where it started, with the step blocked, or kept. */
  function Judged(s: Controller, w: Window): (Controller, Adjustment)
    requires Usable(w)
  {
    if Rejects(s, w) then
      (s.(depth := Min(s.depth, s.probeFrom), previous := Some(s.probeRef), rejectedFrom := s.probeFrom,
          rejectedRef := Some(s.probeRef), blocked := true, cooldown := 2, probing := false, stable := 0),
       if s.depth > s.probeFrom then Down else NoChange)
    else (s.(previous := Some(w.latency.value), cooldown := 2, probing := false, stable := 0), NoChange)
  }

  function BackedOff(s: Controller, w: Window): (Controller, Adjustment)
    requires Usable(w)
  {
    (s.(depth := if s.depth > s.config.minDepth then s.depth - 1 else s.depth,
        previous := Some(w.latency.value), stable := 0, cooldown := 2),
     if s.depth > s.config.minDepth then Down else NoChange)
  }

  function Calmed(s: Controller, w: Window): (Controller, Adjustment)
    requires Usable(w)
  {
    var calm := Settled(s, w);
    if MayProbe(calm, w) then
      (calm.(probeRef := w.latency.value, probeFrom := calm.depth, depth := calm.depth + 1, probing := true,
             stable := 0), Up)
    else (calm, NoChange)
  }

  function Observed(s: Controller, w: Window): (Controller, Adjustment)
    requires Usable(w)
  {
    var r := if s.probing then Judged(s, w)
             else if HardPressure(s, w) || Slower(s, w) then BackedOff(s, w)
             else Calmed(s, w);
    (r.0.(previousEvictions := w.evictions), r.1)
  }

  // ----- The controller object

  class AdaptivePrefetchController {
    const config: Config
    var depth: nat
    var stable: nat
    var cooldown: nat
    var probeFrom: nat
    var rejectedFrom: nat
    var previousEvictions: nat
    var previous: Option<real>
    var probeRef: real
    var rejectedRef: Option<real>
    var probing: bool
    var blocked: bool

    ghost function Value(): Controller
      reads this
    {
      Controller(config, depth, stable, cooldown, probeFrom, rejectedFrom, previousEvictions, previous, probeRef,
                 rejectedRef,
                 probing, blocked)
    }

    constructor (c: Config, initialDepth: nat)
      ensures Value() == Start(c, initialDepth)
    {
      config := Sane(c);
      var d := ClampNat(initialDepth, Sane(c).minDepth, Sane(c).maxDepth);
      depth, probeFrom := d, d;
      stable, cooldown, rejectedFrom, previousEvictions := 0, 0, 0, 0;
      previous, rejectedRef, probeRef := None, None, 0.0;
      probing, blocked := false, false;
    }

    /** The branch for a running probe: keep it, or go back and remember the rejected step. */
    method JudgeProbe(ghost w: Window, ms: real, hardPressure: bool) returns (adjustment: Adjustment)
      requires Usable(w) && w.latency == Some(ms) && probing && hardPressure == HardPressure(Value(), w)
      modifies this
      ensures (Value(), adjustment) == Judged(old(Value()), w)
    {
      adjustment := NoChange;
      var nonRegressive := ms <= probeRef * 1.005;
      if hardPressure || !nonRegressive {
        if depth > probeFrom {
          depth := probeFrom;
          adjustment := Down;
        }
        previous := Some(probeRef);
        rejectedFrom := probeFrom;
        rejectedRef := Some(probeRef);
        blocked := true;
        cooldown := 2;
      } else {
        previous := Some(ms);
        cooldown := 2;
      }
      probing := false;
      stable := 0;
    }

    /** The bookkeeping of a calm window: count it, cool down, reopen a stale rejection. */
    method Settle(ghost w: Window, ms: real, countsAsStable: bool)
      requires Usable(w) && w.latency == Some(ms)
      requires countsAsStable == (Steady(Value(), w) && HighUse(Value(), w) && w.late > 0)
      modifies this
      ensures Value() == Settled(old(Value()), w)
    {
      hide HardPressure, UsefulRatio;
      previous := Some(ms);
      if cooldown > 0 {
        cooldown := cooldown - 1;
      }
      if countsAsStable {
        stable := (stable + 1) % U32_LIMIT;
      } else {
        stable := 0;
      }
      if blocked && depth == rejectedFrom && rejectedRef.Some? && ms > rejectedRef.value * 1.05 {
        blocked := false;
        cooldown := Max(cooldown, 2);
        stable := 0;
      }
    }

    /** The branch without pressure: settle, then perhaps start a probe one step deeper. */
    method Calm(w: Window, ms: real, steady: bool, highUse: bool, needsMore: bool) returns (adjustment: Adjustment)
      requires Usable(w) && w.latency == Some(ms) && needsMore == (w.late > 0)
      requires steady == Steady(Value(), w) && highUse == HighUse(Value(), w)
      modifies this
      ensures (Value(), adjustment) == Calmed(old(Value()), w)
    {
      hide HardPressure, UsefulRatio, Steady, Reopens, NextStable;
      adjustment := NoChange;
      Settle(w, ms, steady && highUse && needsMore);
      var headroom := w.inflightLimit == U64_MAX
        || (w.inflightLimit > 0 && w.peakInflight < w.inflightLimit - w.inflightLimit / 4);
      var rejectedTransition := blocked && depth == rejectedFrom;
      if stable >= 2 && cooldown == 0 && highUse && needsMore && headroom && !rejectedTransition
         && depth < config.maxDepth {
        probeRef := ms;
        probeFrom := depth;
        depth := depth + 1;
        adjustment := Up;
        probing := true;
        stable := 0;
      }
    }

    /** An unusable latency is refused and changes nothing; otherwise one observation step. */
    method Observe(w: Window) returns (r: Result<(nat, Adjustment)>)
      modifies this
      ensures r.Ok? <==> Usable(w)
      ensures r.Err? ==> Value() == old(Value())
      ensures r.Ok? ==> Value() == Observed(old(Value()), w).0 && r.value == (depth, Observed(old(Value()), w).1)
    {
      hide Calmed, Judged;
      if w.latency.None? || w.latency.value < 0.0 {
        return Err("adaptive prefetch window latency must be finite and non-negative");
      }
      var ms := w.latency.value;
      var haveUsefulness := w.consumed >= 2;
      var ratio := UsefulRatio(w);
      var lowUse := haveUsefulness && ratio < config.low;
      var highUse := haveUsefulness && ratio >= config.high;
      var needsMore := w.late > 0;
      var evictionPressure := w.evictions > previousEvictions && haveUsefulness && !highUse;
      var slower := previous.Some? && ms > previous.value * 1.05;
      var steady := previous.Some? && ms <= previous.value * 1.01;
      var hardPressure := evictionPressure || w.budgetSkips > 0 || lowUse;
      var adjustment := NoChange;
      if probing {
        adjustment := JudgeProbe(w, ms, hardPressure);
      } else if hardPressure || slower {
        if depth > config.minDepth {
          depth := depth - 1;
          adjustment := Down;
        }
        previous := Some(ms);
        stable := 0;
        cooldown := 2;
      } else {
        adjustment := Calm(w, ms, steady, highUse, needsMore);
      }
      previousEvictions := w.evictions;
      return Ok((depth, adjustment));
    }
  }

  // ----- When the depth changes

  /** The share of useful requests against a threshold, without the division. */
  lemma ShareBelow(w: Window, threshold: real)
    requires w.consumed > 0
    ensures UsefulRatio(w) < threshold <==> w.useful as real < threshold * w.consumed as real
  {
    var n := w.consumed as real;
    assert UsefulRatio(w) * n == w.useful as real;
    if UsefulRatio(w) < threshold {
      assert UsefulRatio(w) * n < threshold * n;
    } else {
      assert UsefulRatio(w) * n >= threshold * n;
    }
  }

  /** Fewer than the given share of at least two requests that were reached were useful. */
  predicate UsedBelow(w: Window, threshold: real) {
    w.consumed > 1 && w.useful as real < threshold * w.consumed as real
  }

  /** New evictions without high use, a request skipped for budget, or low use. */
  predicate UnderPressure(s: Controller, w: Window) {
    || w.budgetSkips > 0 || UsedBelow(w, s.config.low)
    || (w.evictions > s.previousEvictions && UsedBelow(w, s.config.high))
  }

  lemma PressureIs(s: Controller, w: Window)
    ensures HardPressure(s, w) == UnderPressure(s, w)
  {
    if w.consumed >= 2 {
      ShareBelow(w, s.config.low);
      ShareBelow(w, s.config.high);
    }
  }

  /** An increase starts a probe: what has to come together for it. */
  lemma UpExactly(s: Controller, w: Window)
    requires Usable(w)
    ensures Observed(s, w).1 == Up <==>
            && !s.probing && s.depth < s.config.maxDepth
            && !UnderPressure(s, w) && w.consumed > 1 && !UsedBelow(w, s.config.high) && w.late > 0
            && s.previous.Some? && w.latency.value <= s.previous.value * 1.01 && !Slower(s, w)
            && (s.stable + 1) % U32_LIMIT >= 2 && s.cooldown <= 1
            && (w.inflightLimit == U64_MAX
                || (w.inflightLimit > 0 && w.peakInflight + w.inflightLimit / 4 < w.inflightLimit))
            && !(s.blocked && s.depth == s.rejectedFrom)
  {
    PressureIs(s, w);
    if w.consumed >= 2 {
      ShareBelow(w, s.config.high);
    }
  }

  /** A decrease takes back a probe that did not pay, or one step under pressure or after a slower window. */
  lemma DownExactly(s: Controller, w: Window)
    requires Usable(w)
    ensures Observed(s, w).1 == Down <==>
            if s.probing then
              s.depth > s.probeFrom && (UnderPressure(s, w) || w.latency.value > s.probeRef * 1.005)
            else
              s.depth > s.config.minDepth
              && (UnderPressure(s, w) || (s.previous.Some? && w.latency.value > s.previous.value * 1.05))
  {
    PressureIs(s, w);
  }

  /** A block is set by a rejected probe, and lifted by a calm window that is clearly slower than the rejected one. */
  lemma BlockedExactly(s: Controller, w: Window)
    requires Usable(w)
    ensures Observed(s, w).0.blocked <==>
            if s.probing then s.blocked || UnderPressure(s, w) || w.latency.value > s.probeRef * 1.005
            else s.blocked
                 && !(!UnderPressure(s, w) && !Slower(s, w) && s.depth == s.rejectedFrom
                      && s.rejectedRef.Some? && w.latency.value > s.rejectedRef.value * 1.05)
  {
    PressureIs(s, w);
  }

  // ----- Runs of observations

  ghost predicate AllUsable(ws: seq<Window>) {
    forall i :: 0 <= i < |ws| ==> Usable(ws[i])
  }

  /** The controller after the first n windows. */
  ghost function After(s: Controller, ws: seq<Window>, n: nat): Controller
    requires AllUsable(ws) && n <= |ws|
  {
    if n == 0 then s else Observed(After(s, ws, n - 1), ws[n - 1]).0
  }

  /** What the n-th observation did. */
  ghost function Move(s: Controller, ws: seq<Window>, n: nat): Adjustment
    requires AllUsable(ws) && n < |ws|
  {
    Observed(After(s, ws, n), ws[n]).1
  }

  ghost function Count(s: Controller, ws: seq<Window>, n: nat, a: Adjustment): nat
    requires AllUsable(ws) && n <= |ws|
  {
    if n == 0 then 0 else Count(s, ws, n - 1, a) + if Move(s, ws, n - 1) == a then 1 else 0
  }

  ghost predicate Sound(s: Controller) {
    && 0 < s.config.minDepth <= s.depth <= s.config.maxDepth
    && (s.probing ==> s.depth == s.probeFrom + 1 && s.config.minDepth <= s.probeFrom)
  }

  lemma StartSound(c: Config, d: nat)
    ensures Sound(Start(c, d))
  {
  }

  lemma StepSound(s: Controller, w: Window)
    requires Sound(s) && Usable(w)
    ensures var r := Observed(s, w);
            && Sound(r.0) && r.0.config == s.config
            && r.0.depth == s.depth + (if r.1 == Up then 1 else 0) - (if r.1 == Down then 1 else 0)
  {
  }

  /**
   * Over every run: the depth stays in its range, is the initial depth plus ups minus downs, and a probe is one
   * step deep.
   */
  lemma {:induction false} DepthLedger(c: Config, d: nat, ws: seq<Window>, n: nat)
    requires AllUsable(ws) && n <= |ws|
    ensures var s0, s := Start(c, d), After(Start(c, d), ws, n);
            && s.config == Sane(c) && Sound(s)
            && s.depth == s0.depth + Count(s0, ws, n, Up) - Count(s0, ws, n, Down)
  {
    if n == 0 {
      StartSound(c, d);
    } else {
      DepthLedger(c, d, ws, n - 1);
      StepSound(After(Start(c, d), ws, n - 1), ws[n - 1]);
    }
  }

  /** The reference for the next window is this window's latency, or that of the window before a rejected probe. */
  lemma ReferenceIs(s: Controller, ws: seq<Window>, n: nat)
    requires AllUsable(ws) && n < |ws|
    ensures var at, w := After(s, ws, n), ws[n];
            After(s, ws, n + 1).previous == Some(if Rejects(at, w) then at.probeRef else w.latency.value)
    ensures After(s, ws, n + 1).previousEvictions == ws[n].evictions
  {
    hide HardPressure, Slower, MayProbe, Reopens, NextStable;
  }

  /** A probe is running exactly after an increase, and it is judged against the window that started it. */
  lemma ProbeIs(s: Controller, ws: seq<Window>, n: nat)
    requires AllUsable(ws) && n < |ws|
    ensures var after := After(s, ws, n + 1);
            && after.probing == (Move(s, ws, n) == Up)
            && (after.probing ==> after.probeFrom == After(s, ws, n).depth && after.depth == after.probeFrom + 1
                                  && after.probeRef == ws[n].latency.value)
  {
    hide HardPressure, Slower, MayProbe, Reopens, NextStable;
  }

  /**
   * A step deeper is kept if the next window is free of pressure and at most half a percent slower than the window
   * that started it; otherwise the depth goes back to what it was.
   */
  lemma ProbeVerdict(s: Controller, ws: seq<Window>, n: nat)
    requires AllUsable(ws) && n + 1 < |ws| && Move(s, ws, n) == Up
    ensures var before, probe := After(s, ws, n).depth, After(s, ws, n + 1);
            var kept := !UnderPressure(probe, ws[n + 1]) && ws[n + 1].latency.value <= ws[n].latency.value * 1.005;
            && After(s, ws, n + 2).depth == (if kept then before + 1 else before)
            && Move(s, ws, n + 1) == (if kept then NoChange else Down)
  {
    hide UnderPressure, HardPressure, Slower, MayProbe;
    ProbeIs(s, ws, n);
    PressureIs(After(s, ws, n + 1), ws[n + 1]);
  }

  /** The window was no more than one percent slower than the reference, well used, and had late requests. */
  predicate CountsAsStable(s: Controller, w: Window)
    requires Usable(w)
  {
    && s.previous.Some? && w.latency.value <= s.previous.value * 1.01
    && w.consumed > 1 && !UsedBelow(w, s.config.high) && w.late > 0
  }

  lemma StreakStep(s: Controller, w: Window)
    requires Usable(w) && Observed(s, w).0.stable > 0
    ensures CountsAsStable(s, w) && Observed(s, w).1 == NoChange
    ensures Observed(s, w).0.stable <= s.stable + 1
  {
    hide HardPressure, MayProbe;
    if w.consumed >= 2 {
      ShareBelow(w, s.config.high);
    }
  }

  lemma UpIsStable(s: Controller, w: Window)
    requires Usable(w) && Observed(s, w).1 == Up
    ensures CountsAsStable(s, w) && s.stable >= 1
  {
    hide HardPressure;
    if w.consumed >= 2 {
      ShareBelow(w, s.config.high);
    }
  }

  lemma FirstIsNotStable(c: Config, d: nat, w: Window)
    requires Usable(w)
    ensures !CountsAsStable(Start(c, d), w)
  {
  }

  /** An increase needs two stable windows in a row, the second of them the one that it follows. */
  lemma UpNeedsTwoStable(c: Config, d: nat, ws: seq<Window>, n: nat)
    requires AllUsable(ws) && n < |ws| && Move(Start(c, d), ws, n) == Up
    ensures n >= 2
    ensures CountsAsStable(After(Start(c, d), ws, n), ws[n])
    ensures CountsAsStable(After(Start(c, d), ws, n - 1), ws[n - 1])
  {
    hide Observed, CountsAsStable;
    var s := Start(c, d);
    UpIsStable(After(s, ws, n), ws[n]);
    if n >= 1 {
      StreakStep(After(s, ws, n - 1), ws[n - 1]);
    }
    if n == 1 {
      FirstIsNotStable(c, d, ws[0]);
    }
  }

  lemma RestStep(s: Controller, w: Window)
    requires Usable(w) && (s.cooldown > 0 ==> s.stable + s.cooldown <= 2)
    ensures var r := Observed(s, w).0;
            r.cooldown > 0 ==> r.stable + r.cooldown <= 2
  {
    hide HardPressure, UsefulRatio;
  }

  /** The rest after a change never delays an increase by itself: two stable windows take longer. */
  lemma {:induction false} RestIsCovered(c: Config, d: nat, ws: seq<Window>, n: nat)
    requires AllUsable(ws) && n <= |ws|
    ensures var s := After(Start(c, d), ws, n);
            s.cooldown > 0 ==> s.stable + s.cooldown <= 2
  {
    if n > 0 {
      RestIsCovered(c, d, ws, n - 1);
      RestStep(After(Start(c, d), ws, n - 1), ws[n - 1]);
    }
  }

  /** After a probe has been judged the controller rests: two calm windows must pass before the next one. */
  lemma NoUpSoon(s: Controller, w1: Window, w2: Window)
    requires Usable(w1) && Usable(w2) && s.probing
    ensures Observed(s, w1).1 != Up
    ensures Observed(Observed(s, w1).0, w2).1 != Up
  {
  }

  /** Two increases are at least three observations apart. */
  lemma UpsAreSpaced(s: Controller, ws: seq<Window>, i: nat, j: nat)
    requires AllUsable(ws) && i < j < |ws| && Move(s, ws, i) == Up && Move(s, ws, j) == Up
    ensures j - i >= 3
  {
    assert After(s, ws, i + 1).probing;
    if i + 2 < |ws| {
      NoUpSoon(After(s, ws, i + 1), ws[i + 1], ws[i + 2]);
    }
  }

  /** Nothing between k and j lifts the block set at k on stepping up from depth d with reference r. */
  ghost predicate Quiet(s: Controller, ws: seq<Window>, k: nat, j: nat, d: nat, r: real)
    requires AllUsable(ws) && j <= |ws|
  {
    forall m :: k < m < j ==>
      var at := After(s, ws, m);
      && !(at.depth == d && ws[m].latency.value > r * 1.05)
      && !(Rejects(at, ws[m]) && at.probeFrom != d)
  }

  ghost predicate Blocks(s: Controller, d: nat, r: real) {
    s.blocked && s.rejectedFrom == d && s.rejectedRef == Some(r) && (s.probing ==> s.probeFrom != d)
  }

  lemma StepKeepsBlock(s: Controller, w: Window, d: nat, r: real)
    requires Usable(w) && Blocks(s, d, r)
    requires !(s.depth == d && w.latency.value > r * 1.05) && !(Rejects(s, w) && s.probeFrom != d)
    ensures Blocks(Observed(s, w).0, d, r)
  {
  }

  lemma NoUpFromBlocked(s: Controller, w: Window, d: nat, r: real)
    requires Usable(w) && Blocks(s, d, r) && s.depth == d
    ensures Observed(s, w).1 != Up
  {
  }

  lemma RejectionBlocks(s: Controller, w: Window)
    requires Usable(w) && Rejects(s, w)
    ensures Blocks(Observed(s, w).0, s.probeFrom, s.probeRef)
  {
  }

  lemma {:induction false} BlockLasts(s: Controller, ws: seq<Window>, k: nat, j: nat, d: nat, r: real)
    requires AllUsable(ws) && k < j <= |ws| && Rejects(After(s, ws, k), ws[k])
    requires d == After(s, ws, k).probeFrom && r == After(s, ws, k).probeRef && Quiet(s, ws, k, j, d, r)
    ensures Blocks(After(s, ws, j), d, r)
    decreases j
  {
    hide Observed, HardPressure;
    if j > k + 1 {
      BlockLasts(s, ws, k, j - 1, d, r);
      StepKeepsBlock(After(s, ws, j - 1), ws[j - 1], d, r);
    } else {
      RejectionBlocks(After(s, ws, k), ws[k]);
    }
  }

  /**
   * A rejected probe from depth d with reference r: no step up from d until an observation at depth d exceeds 1.05 r,
   * or a probe from another depth is rejected.
   */
  lemma RejectedProbeHolds(s: Controller, ws: seq<Window>, k: nat, j: nat, d: nat, r: real)
    requires AllUsable(ws) && k < j < |ws| && Rejects(After(s, ws, k), ws[k])
    requires d == After(s, ws, k).probeFrom && r == After(s, ws, k).probeRef
    requires After(s, ws, j).depth == d && Move(s, ws, j) == Up
    ensures !Quiet(s, ws, k, j, d, r)
  {
    if Quiet(s, ws, k, j, d, r) {
      BlockLasts(s, ws, k, j, d, r);
      NoUpFromBlocked(After(s, ws, j), ws[j], d, r);
    }
  }
}
