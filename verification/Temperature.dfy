/**
 The temperature model of a device: a first-order ratio that approaches 1 while the
 device is active and 0 while it rests, with hysteresis between WARM and HOT.

 The exponential and the logarithm are parameters: `decay(x)` stands for exp(-x) and
 `ln` for its logarithm, of which only the laws below are used.  Times are in seconds.
 */
module Temperature {
  import opened Common

  const COLD_THRESH: real := 0.26894142136999512075
  const WARM_HOT_THRESH: real := 1.0 - COLD_THRESH
  const HOT_WARM_THRESH: real := 0.5
  const DELAY_SECONDS: real := 0.1

  datatype Temp = Cold | Warm | Hot

  ghost predicate IsDecay(decay: real -> real) {
    && decay(0.0) == 1.0
    && (forall x :: x > 0.0 ==> 0.0 < decay(x) < 1.0)
    && (forall x, y :: x >= 0.0 && y >= 0.0 ==> decay(x + y) == decay(x) * decay(y))
  }

  /** `ln` inverts `decay` on (0, 1], the only arguments the model takes it of. */
  ghost predicate IsLog(ln: real -> real, decay: real -> real) {
    forall y :: 0.0 < y <= 1.0 ==> ln(y) <= 0.0 && decay(-ln(y)) == y
  }

  /** The ratio after `t` seconds of unchanged activity. */
  function Ratio(decay: real -> real, ratio: real, active: bool, t: real, hotSeconds: real, coldSeconds: real): real
    requires hotSeconds > 0.0 && coldSeconds > 0.0
  {
    Blend(decay(t / (if active then hotSeconds else coldSeconds)), ratio, active)
  }

  /** The ratio decays by `alpha` towards 1 if active and towards 0 at rest. */
  function Blend(alpha: real, ratio: real, active: bool): real {
    if active then alpha * ratio + 1.0 - alpha else alpha * ratio
  }

  /** The class of a ratio; between the two thresholds HOT stays HOT. */
  function Classify(ratio: real, before: Temp): Temp {
    if ratio < COLD_THRESH then Cold
    else if ratio < HOT_WARM_THRESH then Warm
    else if ratio < WARM_HOT_THRESH then (if before == Hot then Hot else Warm)
    else Hot
  }

  /** The threshold at which the model has to be looked at again, if there is one. */
  function NextThreshold(ratio: real, active: bool): Option<real> {
    if ratio < COLD_THRESH then (if active then Some(COLD_THRESH) else None)
    else if ratio < HOT_WARM_THRESH then Some(if active then WARM_HOT_THRESH else COLD_THRESH)
    else if ratio < WARM_HOT_THRESH then Some(if active then WARM_HOT_THRESH else HOT_WARM_THRESH)
    else if active then None
    else Some(HOT_WARM_THRESH)
  }

  /** Milliseconds, truncated: `h` times minus the logarithm, and a little more. */
  function Milliseconds(h: real, log: real): int {
    ((-h * log + DELAY_SECONDS) * 1000.0).Floor
  }

  /** The factor by which the ratio's distance from its limit has to decay to reach the threshold. */
  function Factor(ratio: real, active: bool, threshold: real): real
    requires ratio < 1.0 && (!active ==> ratio > 0.0)
  {
    if active then (threshold - 1.0) / (ratio - 1.0) else threshold / ratio
  }

  function Timeout(ln: real -> real, ratio: real, active: bool, threshold: real, hotSeconds: real, coldSeconds: real): int
    requires ratio < 1.0 && (!active ==> ratio > 0.0)
  {
    Milliseconds(if active then hotSeconds else coldSeconds, ln(Factor(ratio, active, threshold)))
  }

  // ---------------------------------------------------------------- laws of the ratio

  lemma Product(x: real, y: real)
    requires x > 0.0
    ensures y > 0.0 ==> x * y > 0.0
    ensures y >= 0.0 ==> x * y >= 0.0
    ensures y < 1.0 ==> x * y < x
    ensures y <= 1.0 ==> x * y <= x
  {
  }

  lemma Quotient(t: real, h: real)
    requires h > 0.0
    ensures t / h * h == t
    ensures t >= 0.0 ==> t / h >= 0.0
    ensures t > 0.0 ==> t / h > 0.0
  {
  }

  lemma QuotientSum(t: real, u: real, h: real)
    requires h > 0.0
    ensures (t + u) / h == t / h + u / h
  {
  }

  lemma Shrink(alpha: real, r: real)
    requires 0.0 < alpha <= 1.0 && 0.0 <= r
    ensures 0.0 <= alpha * r <= r
  {
    Product(alpha, r);
    if r > 0.0 {
      Product(r, alpha);
      assert r * alpha == alpha * r;
    }
  }

  lemma Complements(x: real, y: real)
    requires x <= 1.0 && y <= 1.0
    ensures 1.0 - x - y + x * y >= 0.0
  {
    var z := (1.0 - x) * (1.0 - y);
    assert z >= 0.0;
  }

  lemma BlendUp(alpha: real, r: real)
    requires 0.0 < alpha <= 1.0 && 0.0 <= r < 1.0
    ensures r <= alpha * r + 1.0 - alpha < 1.0
  {
    Product(alpha, r);
    Complements(alpha, r);
  }

  lemma BlendInRange(alpha: real, r: real, active: bool)
    requires 0.0 < alpha <= 1.0 && 0.0 <= r < 1.0
    ensures 0.0 <= Blend(alpha, r, active) < 1.0
    ensures if active then Blend(alpha, r, active) >= r else Blend(alpha, r, active) <= r
  {
    if active {
      BlendUp(alpha, r);
    } else {
      Shrink(alpha, r);
    }
  }

  lemma DecayRange(decay: real -> real, x: real)
    requires IsDecay(decay) && x >= 0.0
    ensures 0.0 < decay(x) <= 1.0
  {
  }

  /** An update keeps the ratio in range, and moves it up if active and down at rest. */
  lemma RatioStaysInRange(decay: real -> real, ratio: real, active: bool, t: real, hot: real, cold: real)
    requires IsDecay(decay) && hot > 0.0 && cold > 0.0 && t >= 0.0
    requires 0.0 <= ratio < 1.0
    ensures var after := Ratio(decay, ratio, active, t, hot, cold);
            0.0 <= after < 1.0 && (if active then after >= ratio else after <= ratio)
  {
    var h := if active then hot else cold;
    Quotient(t, h);
    DecayRange(decay, t / h);
    BlendInRange(decay(t / h), ratio, active);
  }

  lemma Compose(a: real, b: real, r: real)
    ensures b * (a * r + 1.0 - a) + 1.0 - b == a * b * r + 1.0 - a * b
    ensures b * (a * r) == a * b * r
  {
  }

  /** Two updates with the same activity amount to one. */
  lemma RatioSplits(decay: real -> real, ratio: real, active: bool, t: real, u: real, hot: real, cold: real)
    requires IsDecay(decay) && hot > 0.0 && cold > 0.0 && t >= 0.0 && u >= 0.0
    ensures Ratio(decay, Ratio(decay, ratio, active, t, hot, cold), active, u, hot, cold)
         == Ratio(decay, ratio, active, t + u, hot, cold)
  {
    var h := if active then hot else cold;
    Quotient(t, h);
    Quotient(u, h);
    QuotientSum(t, u, h);
    Compose(decay(t / h), decay(u / h), ratio);
  }

  function Total(steps: seq<real>): real {
    if steps == [] then 0.0 else steps[0] + Total(steps[1..])
  }

  function RatioAfter(decay: real -> real, ratio: real, active: bool, steps: seq<real>, hot: real, cold: real): real
    requires hot > 0.0 && cold > 0.0
    decreases |steps|
  {
    if steps == [] then ratio
    else RatioAfter(decay, Ratio(decay, ratio, active, steps[0], hot, cold), active, steps[1..], hot, cold)
  }

  lemma NoTimeNoChange(decay: real -> real, ratio: real, active: bool, hot: real, cold: real)
    requires IsDecay(decay) && hot > 0.0 && cold > 0.0
    ensures Ratio(decay, ratio, active, 0.0, hot, cold) == ratio
  {
    assert 0.0 / (if active then hot else cold) == 0.0;
  }

  /** However an interval of unchanged activity is cut into updates, the ratio is that of one update. */
  lemma {:induction false} UpdatesCompose(decay: real -> real, ratio: real, active: bool, steps: seq<real>, hot: real, cold: real)
    requires IsDecay(decay) && hot > 0.0 && cold > 0.0
    requires forall i :: 0 <= i < |steps| ==> steps[i] >= 0.0
    ensures Total(steps) >= 0.0
    ensures RatioAfter(decay, ratio, active, steps, hot, cold) == Ratio(decay, ratio, active, Total(steps), hot, cold)
    decreases |steps|
  {
    if steps == [] {
      NoTimeNoChange(decay, ratio, active, hot, cold);
    } else {
      UpdatesCompose(decay, Ratio(decay, ratio, active, steps[0], hot, cold), active, steps[1..], hot, cold);
      RatioSplits(decay, ratio, active, steps[0], Total(steps[1..]), hot, cold);
    }
  }

  /** The threshold constant: from the top of COLD one time constant of activity leads to HOT. */
  lemma ColdToHotInOneTimeConstant(decay: real -> real, hot: real, cold: real)
    requires IsDecay(decay) && hot > 0.0 && cold > 0.0
    ensures var c := decay(1.0) / (1.0 + decay(1.0));
            Ratio(decay, c, true, hot, hot, cold) == 1.0 - c
  {
    assert hot / hot == 1.0;
    var a := decay(1.0);
    var c := a / (1.0 + a);
    assert c * (1.0 + a) == a;
    assert a * c + 1.0 - a == 1.0 - c;
  }

  /**
   The literal in the source: where `decay(1)` is 1 / e, it is off by less than 10^-16, and so
   is where one time constant of activity leads from it.
   */
  lemma ColdThresholdLiteral(decay: real -> real, hot: real, cold: real)
    requires IsDecay(decay) && hot > 0.0 && cold > 0.0
    requires 0.36787944117144232 < decay(1.0) < 0.36787944117144233
    ensures var c := decay(1.0) / (1.0 + decay(1.0));
            -0.0000000000000001 < COLD_THRESH - c < 0.0000000000000001
    ensures var after := Ratio(decay, COLD_THRESH, true, hot, hot, cold);
            -0.0000000000000001 < after - WARM_HOT_THRESH < 0.0000000000000001
  {
    assert hot / hot == 1.0;
    var a := decay(1.0);
    NearQuotient(a, 1.0 + a, COLD_THRESH, 0.0000000000000001);
  }

  lemma NearQuotient(x: real, y: real, q: real, eps: real)
    requires y >= 1.0 && eps > 0.0 && -eps < q * y - x < eps
    ensures -eps < q - x / y < eps
  {
    var d := q - x / y;
    assert d * y == q * y - x;
    AtLeastTimes(y, d);
    AtLeastTimes(y, -d);
  }

  lemma AtLeastTimes(y: real, d: real)
    requires y >= 1.0
    ensures d >= 0.0 ==> d * y >= d
    ensures -d * y == -(d * y)
  {
    if d >= 0.0 {
      Grows(d, y - 1.0);
    }
  }

  lemma Grows(x: real, y: real)
    requires x >= 0.0 && y >= 0.0
    ensures x * (y + 1.0) >= x
  {
    assert x * y >= 0.0;
  }

  // ---------------------------------------------------------------- timers

  /** An armed timer runs for at least the delay, and on expiry the threshold is passed. */
  lemma TimerCrossesThreshold(decay: real -> real, ln: real -> real, ratio: real, active: bool,
                              hot: real, cold: real, elapsed: real)
    requires IsDecay(decay) && IsLog(ln, decay)
    requires hot > 0.0 && cold > 0.0 && 0.0 <= ratio < 1.0
    requires NextThreshold(ratio, active).Some?
    requires elapsed >= Timeout(ln, ratio, active, NextThreshold(ratio, active).value, hot, cold) as real / 1000.0
    ensures Timeout(ln, ratio, active, NextThreshold(ratio, active).value, hot, cold) >= 100
    ensures var after := Ratio(decay, ratio, active, elapsed, hot, cold);
            if active then after > NextThreshold(ratio, active).value
            else after < NextThreshold(ratio, active).value
  {
    var thr := NextThreshold(ratio, active).value;
    var h := if active then hot else cold;
    FactorInRange(ratio, active, thr);
    TimerDecay(decay, ln, h, Factor(ratio, active, thr), Timeout(ln, ratio, active, thr, hot, cold), elapsed);
    if active {
      HeatingPasses(decay(elapsed / h), ratio, thr);
    } else {
      CoolingPasses(decay(elapsed / h), ratio, thr);
    }
  }

  lemma ScaledBack(h: real, x: real)
    requires h > 0.0
    ensures (h * x) / h == x
  {
  }

  lemma DecayFalls(decay: real -> real, x: real, y: real)
    requires IsDecay(decay) && x >= 0.0 && y > 0.0
    ensures 0.0 < decay(x + y) < decay(x) <= 1.0
  {
    assert x == 0.0 || x > 0.0;
    assert decay(x + y) == decay(x) * decay(y);
    Product(decay(x), decay(y));
  }

  /** Waiting longer than `seconds` passes the point `decay(seconds / h)`. */
  lemma WaitLonger(decay: real -> real, h: real, seconds: real, elapsed: real)
    requires IsDecay(decay) && h > 0.0 && seconds >= 0.0 && elapsed > seconds
    ensures 0.0 < decay(elapsed / h) < decay(seconds / h) <= 1.0
  {
    var extra := elapsed - seconds;
    Quotient(seconds, h);
    Quotient(extra, h);
    QuotientSum(seconds, extra, h);
    assert elapsed / h == seconds / h + extra / h;
    DecayFalls(decay, seconds / h, extra / h);
  }

  lemma EnoughWait(seconds: real, ms: int, elapsed: real)
    requires seconds >= 0.0
    requires ms == ((seconds + DELAY_SECONDS) * 1000.0).Floor && elapsed >= ms as real / 1000.0
    ensures ms >= 100 && elapsed > seconds
  {
    assert (seconds + DELAY_SECONDS) * 1000.0 >= 100.0;
  }

  /** Waiting for h * x seconds and longer brings the decay below decay(x). */
  lemma DecayBelow(decay: real -> real, h: real, x: real, ms: int, elapsed: real)
    requires IsDecay(decay) && h > 0.0 && x >= 0.0
    requires ms == ((h * x + DELAY_SECONDS) * 1000.0).Floor && elapsed >= ms as real / 1000.0
    ensures ms >= 100 && elapsed > 0.0 && 0.0 < decay(elapsed / h) < decay(x)
  {
    Product(h, x);
    ScaledBack(h, x);
    EnoughWait(h * x, ms, elapsed);
    WaitLonger(decay, h, h * x, elapsed);
  }

  lemma NegatedFactor(h: real, x: real)
    ensures -h * x == h * -x
  {
  }

  lemma RatioOfNegatives(x: real, y: real)
    requires y <= x < 0.0
    ensures 0.0 < x / y <= 1.0 && x / y * y == x
  {
    var q := x / y;
    assert q * y == x;
    if q <= 0.0 {
      Product(-y, 1.0 - q);
    }
    if q > 1.0 {
      Product(-y, q - 1.0);
    }
  }

  lemma RatioOfPositives(x: real, y: real)
    requires 0.0 < x <= y
    ensures 0.0 < x / y <= 1.0 && x / y * y == x
  {
    Quotient(x, y);
    if x / y > 1.0 {
      Product(y, x / y - 1.0);
    }
  }

  lemma FactorInRange(ratio: real, active: bool, thr: real)
    requires if active then 0.0 <= ratio <= thr < 1.0 else 0.0 < thr <= ratio < 1.0
    ensures 0.0 < Factor(ratio, active, thr) <= 1.0
  {
    if active {
      RatioOfNegatives(thr - 1.0, ratio - 1.0);
    } else {
      RatioOfPositives(thr, ratio);
    }
  }

  /** A decay below the factor leads beyond the threshold. */
  lemma HeatingPasses(alpha: real, r: real, thr: real)
    requires 0.0 <= r <= thr < 1.0 && alpha < Factor(r, true, thr)
    ensures Blend(alpha, r, true) > thr
  {
    var q := Factor(r, true, thr);
    RatioOfNegatives(thr - 1.0, r - 1.0);
    Product(1.0 - r, q - alpha);
    HeatingIdentity(alpha, q, r);
  }

  lemma HeatingIdentity(alpha: real, q: real, r: real)
    ensures (1.0 - r) * (q - alpha) == alpha * r - alpha - q * (r - 1.0)
  {
  }

  lemma CoolingPasses(alpha: real, r: real, thr: real)
    requires 0.0 < thr <= r < 1.0 && alpha < Factor(r, false, thr)
    ensures Blend(alpha, r, false) < thr
  {
    var q := Factor(r, false, thr);
    RatioOfPositives(thr, r);
    Product(r, q - alpha);
    CoolingIdentity(alpha, q, r);
  }

  lemma CoolingIdentity(alpha: real, q: real, r: real)
    ensures r * (q - alpha) == q * r - alpha * r
  {
  }

  /** A timer of `h` times minus the logarithm of `q` has waited until the decay is below `q`. */
  lemma TimerDecay(decay: real -> real, ln: real -> real, h: real, q: real, ms: int, elapsed: real)
    requires IsDecay(decay) && IsLog(ln, decay) && h > 0.0 && 0.0 < q <= 1.0
    requires ms == Milliseconds(h, ln(q)) && elapsed >= ms as real / 1000.0
    ensures ms >= 100 && elapsed > 0.0 && 0.0 < decay(elapsed / h) < q
  {
    NegatedFactor(h, ln(q));
    DecayBelow(decay, h, -ln(q), ms, elapsed);
  }

  // ---------------------------------------------------------------- the model as a state machine

  /** `timeout` is the armed timer in milliseconds; `running` an interactive action. */
  datatype Thermal = Thermal(
    temp: Temp, ratio: real, lastActive: bool, lastUpdate: real, timeout: Option<int>,
    running: bool, cancelled: bool)

  /** The laws, the time constants; a negative one turns the model off. */
  datatype Laws = Laws(decay: real -> real, ln: real -> real, hot: real, cold: real)

  ghost predicate LawsHold(l: Laws) {
    IsDecay(l.decay) && IsLog(l.ln, l.decay) && l.hot > 0.0 && l.cold > 0.0
  }

  /** Update the ratio, the class and the timer; a hot device cancels its interactive action. */
  function Update(s: Thermal, now: real, active: bool, l: Laws): Thermal
    requires l.hot > 0.0 && l.cold > 0.0
  {
    var ratio := Ratio(l.decay, s.ratio, s.lastActive, now - s.lastUpdate, l.hot, l.cold);
    var temp := Classify(ratio, s.temp);
    var next := NextThreshold(ratio, active);
    var timeout := if next.None? || ratio >= 1.0 || (!active && ratio <= 0.0) then None
                   else Some(Timeout(l.ln, ratio, active, next.value, l.hot, l.cold));
    Thermal(temp, ratio, active, now, timeout, s.running, s.cancelled || (temp == Hot && s.running))
  }

  /** The part of the start guards that concerns the temperature. */
  function StartInteractive(s: Thermal, now: real, l: Laws): Thermal
    requires l.hot > 0.0 && l.cold > 0.0
  {
    var t := Update(s, now, true, l);
    if t.temp == Hot then Update(t, now, false, l) else t.(running := true, cancelled := false)
  }

  function FinishAction(s: Thermal, now: real, l: Laws): Thermal
    requires l.hot > 0.0 && l.cold > 0.0
  {
    Update(s.(running := false, cancelled := false), now, false, l)
  }

  datatype Event = StartAt(now: real) | FinishAt(now: real) | TimerAt(now: real)

  function Step(s: Thermal, ev: Event, l: Laws): Thermal
    requires l.hot > 0.0 && l.cold > 0.0
  {
    match ev
    case StartAt(now) => StartInteractive(s, now, l)
    case FinishAt(now) => FinishAction(s, now, l)
    case TimerAt(now) => Update(s, now, s.lastActive, l)
  }

  /**
   Time does not run backwards, one interactive action at a time, timers do not fire early.
   `FinishAt` is the return of a task of any kind, `StartAt` the start of an interactive one.
   */
  predicate MayHappen(s: Thermal, ev: Event) {
    && ev.now >= s.lastUpdate
    && (ev.StartAt? ==> !s.running)
    && (ev.TimerAt? ==> s.timeout.Some? && ev.now - s.lastUpdate >= s.timeout.value as real / 1000.0)
  }

  predicate Inv(s: Thermal) {
    && 0.0 <= s.ratio < 1.0
    && (s.ratio < COLD_THRESH ==> s.temp == Cold)
    && (s.temp == Cold ==> s.ratio <= COLD_THRESH)
    && (s.temp == Hot ==> s.ratio >= HOT_WARM_THRESH)
    && (s.ratio >= WARM_HOT_THRESH ==> s.temp == Hot)
    && (s.running && s.temp == Hot ==> s.cancelled)
    && (s.running ==> s.lastActive)
    && (s.timeout.Some? ==> s.timeout.value >= 100)
  }

  /** With time on record: what an armed timer was computed from. */
  ghost predicate TimerInv(s: Thermal, l: Laws)
    requires LawsHold(l)
  {
    && Inv(s)
    && (s.timeout.Some? <==> NextThreshold(s.ratio, s.lastActive).Some?)
    && (s.timeout.Some? ==>
          && (!s.lastActive ==> s.ratio > 0.0)
          && s.timeout.value
             == Timeout(l.ln, s.ratio, s.lastActive, NextThreshold(s.ratio, s.lastActive).value, l.hot, l.cold))
  }

  /** HOT is entered only at or above its threshold and left only below the lower one. */
  predicate Hysteresis(s: Thermal, t: Thermal) {
    && (s.temp != Hot && t.temp == Hot ==> t.ratio >= WARM_HOT_THRESH)
    && (s.temp == Hot && t.temp != Hot ==> t.ratio < HOT_WARM_THRESH)
  }

  lemma UpdateKeepsInv(s: Thermal, now: real, active: bool, l: Laws)
    requires LawsHold(l) && Inv(s) && now >= s.lastUpdate
    requires s.running ==> active
    ensures TimerInv(Update(s, now, active, l), l)
    ensures Hysteresis(s, Update(s, now, active, l))
    ensures now == s.lastUpdate ==> Update(s, now, active, l).ratio == s.ratio
  {
    var t := now - s.lastUpdate;
    RatioStaysInRange(l.decay, s.ratio, s.lastActive, t, l.hot, l.cold);
    var ratio := Ratio(l.decay, s.ratio, s.lastActive, t, l.hot, l.cold);
    if NextThreshold(ratio, active).Some? {
      var ms := Timeout(l.ln, ratio, active, NextThreshold(ratio, active).value, l.hot, l.cold);
      TimerCrossesThreshold(l.decay, l.ln, ratio, active, l.hot, l.cold, ms as real / 1000.0);
    }
    if t == 0.0 {
      assert 0.0 / l.hot == 0.0 && 0.0 / l.cold == 0.0;
    }
  }

  lemma StepKeepsInv(s: Thermal, ev: Event, l: Laws)
    requires LawsHold(l) && Inv(s) && MayHappen(s, ev)
    ensures TimerInv(Step(s, ev, l), l) && Hysteresis(s, Step(s, ev, l))
    ensures Step(s, ev, l).running && !s.running ==> Step(s, ev, l).temp != Hot
  {
    match ev {
      case StartAt(now) =>
        UpdateKeepsInv(s, now, true, l);
        var t := Update(s, now, true, l);
        UpdateKeepsInv(t, now, false, l);
      case FinishAt(now) =>
        UpdateKeepsInv(s.(running := false, cancelled := false), now, false, l);
      case TimerAt(now) =>
        UpdateKeepsInv(s, now, s.lastActive, l);
    }
  }

  function Run(s: Thermal, evs: seq<Event>, l: Laws): Thermal
    requires l.hot > 0.0 && l.cold > 0.0
    decreases |evs|
  {
    if evs == [] then s else Run(Step(s, evs[0], l), evs[1..], l)
  }

  ghost predicate PossibleRun(s: Thermal, evs: seq<Event>, l: Laws)
    requires l.hot > 0.0 && l.cold > 0.0
    decreases |evs|
  {
    evs != [] ==> MayHappen(s, evs[0]) && PossibleRun(Step(s, evs[0], l), evs[1..], l)
  }

  /** At the upper bound of COLD, inactive, no timer. */
  function Initial(now: real): Thermal {
    Thermal(Cold, COLD_THRESH, false, now, None, false, false)
  }

  lemma {:induction false} RunKeepsInv(s: Thermal, evs: seq<Event>, l: Laws)
    requires LawsHold(l) && Inv(s) && PossibleRun(s, evs, l)
    ensures Inv(Run(s, evs, l))
    ensures evs != [] ==> TimerInv(Run(s, evs, l), l)
    decreases |evs|
  {
    if evs != [] {
      StepKeepsInv(s, evs[0], l);
      RunKeepsInv(Step(s, evs[0], l), evs[1..], l);
    }
  }

  /**
   After any run the ratio is in [0, 1) and fits the class, the next step enters and leaves
   HOT only at the thresholds, and it starts no interactive action on a hot device.
   */
  lemma ModelOverRuns(start: real, evs: seq<Event>, ev: Event, l: Laws)
    requires LawsHold(l) && PossibleRun(Initial(start), evs, l)
    requires MayHappen(Run(Initial(start), evs, l), ev)
    ensures var s := Run(Initial(start), evs, l); var t := Step(s, ev, l);
            && Inv(s) && Inv(t)
            && Hysteresis(s, t)
            && (t.running && !s.running ==> t.temp != Hot)
  {
    RunKeepsInv(Initial(start), evs, l);
    StepKeepsInv(Run(Initial(start), evs, l), ev, l);
  }

  /** The four bands the thresholds cut the ratio into. */
  function Band(ratio: real): nat {
    if ratio < COLD_THRESH then 0
    else if ratio < HOT_WARM_THRESH then 1
    else if ratio < WARM_HOT_THRESH then 2
    else 3
  }

  /** A timer that expires finds the ratio in a hotter band, or in a colder one if at rest. */
  lemma ExpiryChangesBand(start: real, evs: seq<Event>, now: real, l: Laws)
    requires LawsHold(l) && PossibleRun(Initial(start), evs, l)
    requires MayHappen(Run(Initial(start), evs, l), TimerAt(now))
    ensures var s := Run(Initial(start), evs, l); var t := Step(s, TimerAt(now), l);
            && s.timeout.value >= 100
            && (if s.lastActive then Band(t.ratio) > Band(s.ratio) else Band(t.ratio) < Band(s.ratio))
  {
    RunKeepsInv(Initial(start), evs, l);
    var s := Run(Initial(start), evs, l);
    assert evs != [];
    TimerCrossesThreshold(l.decay, l.ln, s.ratio, s.lastActive, l.hot, l.cold, now - s.lastUpdate);
  }

  // ---------------------------------------------------------------- why these timers

  /** The distance of the ratio from its limit, 1 while active and 0 at rest, decays exponentially. */
  lemma DistanceDecays(decay: real -> real, ratio: real, active: bool, t: real, hot: real, cold: real)
    requires hot > 0.0 && cold > 0.0
    ensures var limit := if active then 1.0 else 0.0; var h := if active then hot else cold;
            Ratio(decay, ratio, active, t, hot, cold) - limit == decay(t / h) * (ratio - limit)
  {
    var alpha := decay(t / (if active then hot else cold));
    assert alpha * (ratio - 1.0) == alpha * ratio - alpha;
    assert alpha * (ratio - 0.0) == alpha * ratio;
  }

  /** The ratio moves up while active and down at rest; `r` is still ahead of it. */
  predicate Ahead(ratio: real, active: bool, r: real) {
    0.0 <= r < 1.0 && if active then ratio <= r else r <= ratio
  }

  /** No timer is armed exactly if no boundary lies ahead; otherwise it is for the nearest one. */
  lemma NearestBoundary(ratio: real, active: bool, b: real)
    requires 0.0 <= ratio < 1.0
    ensures active ==> (NextThreshold(ratio, active) == Some(b) <==>
              && (b == COLD_THRESH || b == WARM_HOT_THRESH) && ratio < b
              && (ratio < COLD_THRESH ==> b == COLD_THRESH))
    ensures !active ==> (NextThreshold(ratio, active) == Some(b) <==>
              && (b == COLD_THRESH || b == HOT_WARM_THRESH) && b <= ratio
              && (HOT_WARM_THRESH <= ratio ==> b == HOT_WARM_THRESH))
    ensures NextThreshold(ratio, active) == None <==>
              if active then ratio >= WARM_HOT_THRESH else ratio < COLD_THRESH
  {
  }

  /** While the ratio is on its way to the threshold the class stays as it is, and for good if there is none. */
  lemma ClassStaysUntilTimer(ratio: real, before: Temp, active: bool, r: real)
    requires 0.0 <= ratio < 1.0 && Ahead(ratio, active, r)
    requires NextThreshold(ratio, active).Some? ==>
               var thr := NextThreshold(ratio, active).value; if active then r < thr else thr <= r
    ensures Classify(r, Classify(ratio, before)) == Classify(ratio, before)
  {
  }

  /**
   Past the threshold the class has changed, unless the ratio started between the two upper
   thresholds with the class it is heading for.
   */
  lemma ClassChangesAtTimer(ratio: real, before: Temp, active: bool, r: real)
    requires 0.0 <= ratio < 1.0 && Ahead(ratio, active, r) && NextThreshold(ratio, active).Some?
    requires var thr := NextThreshold(ratio, active).value;
             if active then thr <= r < (if thr == COLD_THRESH then WARM_HOT_THRESH else 1.0)
             else (if thr == HOT_WARM_THRESH then COLD_THRESH else 0.0) <= r < thr
    ensures var temp := Classify(ratio, before);
            Classify(r, temp) == temp <==>
              HOT_WARM_THRESH <= ratio < WARM_HOT_THRESH && (active <==> temp == Hot)
  {
  }

  lemma WaitOf(h: real, x: real) returns (t: real)
    requires h > 0.0 && x >= 0.0
    ensures t == h * x && t >= 0.0 && t / h == x
  {
    t := h * x;
    Product(h, x);
    ScaledBack(h, x);
  }

  lemma FactorMeets(ratio: real, active: bool, thr: real)
    requires if active then 0.0 <= ratio <= thr < 1.0 else 0.0 < thr <= ratio < 1.0
    ensures Blend(Factor(ratio, active, thr), ratio, active) == thr
  {
    if active {
      RatioOfNegatives(thr - 1.0, ratio - 1.0);
      var q := Factor(ratio, true, thr);
      assert q * (ratio - 1.0) == q * ratio - q;
    } else {
      RatioOfPositives(thr, ratio);
    }
  }

  /** The ratio meets the threshold after `t` seconds, and the timer runs a tenth of a second longer. */
  ghost predicate MeetsAfter(decay: real -> real, ratio: real, active: bool, hot: real, cold: real,
                             thr: real, ms: int, t: real)
    requires hot > 0.0 && cold > 0.0
  {
    t >= 0.0 && Ratio(decay, ratio, active, t, hot, cold) == thr && ms == ((t + 0.1) * 1000.0).Floor
  }

  /** A timer is set for the moment the ratio meets the threshold, a tenth of a second later. */
  lemma TimerIsTight(decay: real -> real, ln: real -> real, ratio: real, active: bool, hot: real, cold: real)
    requires IsDecay(decay) && IsLog(ln, decay)
    requires hot > 0.0 && cold > 0.0 && 0.0 <= ratio < 1.0
    requires NextThreshold(ratio, active).Some?
    ensures var thr := NextThreshold(ratio, active).value;
            var ms := Timeout(ln, ratio, active, thr, hot, cold);
            exists t :: MeetsAfter(decay, ratio, active, hot, cold, thr, ms, t)
  {
    var thr := NextThreshold(ratio, active).value;
    var q := Factor(ratio, active, thr);
    FactorInRange(ratio, active, thr);
    FactorMeets(ratio, active, thr);
    var t := MeetingTime(decay, ln, if active then hot else cold, q);
    TimerFor(decay, ln, ratio, active, hot, cold, thr, t);
  }

  lemma MeetingTime(decay: real -> real, ln: real -> real, h: real, q: real) returns (t: real)
    requires IsLog(ln, decay) && h > 0.0 && 0.0 < q <= 1.0
    ensures t >= 0.0 && decay(t / h) == q && t == -h * ln(q)
  {
    var x := -ln(q);
    t := WaitOf(h, x);
    assert decay(x) == q;
    NegatedFactor(h, ln(q));
  }

  lemma TimerFor(decay: real -> real, ln: real -> real, ratio: real, active: bool, hot: real, cold: real,
                 thr: real, t: real)
    requires hot > 0.0 && cold > 0.0 && 0.0 <= ratio < 1.0 && (!active ==> ratio > 0.0) && t >= 0.0
    requires var h := if active then hot else cold; var q := Factor(ratio, active, thr);
             decay(t / h) == q && t == -h * ln(q) && Blend(q, ratio, active) == thr
    ensures MeetsAfter(decay, ratio, active, hot, cold, thr, Timeout(ln, ratio, active, thr, hot, cold), t)
  {
  }

  // ---------------------------------------------------------------- the ratio over a run

  /**
   Every event accounts for exactly the time since the last one, with the activity of that
   time; a start succeeds exactly if the device is not hot, and only then is it active.
   */
  lemma EventsAccountForTime(s: Thermal, ev: Event, l: Laws)
    requires LawsHold(l) && Inv(s) && MayHappen(s, ev)
    ensures var t := Step(s, ev, l);
            var ratio := Ratio(l.decay, s.ratio, s.lastActive, ev.now - s.lastUpdate, l.hot, l.cold);
            && t.ratio == ratio && t.lastUpdate == ev.now && t.temp == Classify(ratio, s.temp)
            && (ev.StartAt? ==> (t.running <==> t.temp != Hot) && (t.lastActive <==> t.temp != Hot))
            && (ev.FinishAt? ==> !t.running && !t.lastActive)
            && (ev.TimerAt? ==> t.running == s.running && t.lastActive == s.lastActive)
  {
    var ratio := Ratio(l.decay, s.ratio, s.lastActive, ev.now - s.lastUpdate, l.hot, l.cold);
    if ev.StartAt? {
      NoTimeNoChange(l.decay, ratio, true, l.hot, l.cold);
      ClassifyTwice(ratio, s.temp);
    }
  }

  lemma ClassifyTwice(ratio: real, before: Temp)
    ensures Classify(ratio, Classify(ratio, before)) == Classify(ratio, before)
  {
  }

  /** However often the timer expires, the ratio is that of the whole time since the last action. */
  lemma {:induction false} TimersCompose(s: Thermal, evs: seq<Event>, l: Laws)
    requires LawsHold(l) && Inv(s) && PossibleRun(s, evs, l) && evs != []
    requires forall i :: 0 <= i < |evs| ==> evs[i].TimerAt?
    ensures var t := Run(s, evs, l); var now := evs[|evs| - 1].now;
            && now >= s.lastUpdate
            && t.ratio == Ratio(l.decay, s.ratio, s.lastActive, now - s.lastUpdate, l.hot, l.cold)
            && t.lastUpdate == now && t.lastActive == s.lastActive
    decreases |evs|
  {
    var t := Step(s, evs[0], l);
    EventsAccountForTime(s, evs[0], l);
    StepKeepsInv(s, evs[0], l);
    if |evs| > 1 {
      assert forall i :: 0 <= i < |evs[1..]| ==> evs[1..][i] == evs[i + 1];
      TimersCompose(t, evs[1..], l);
      var now := evs[|evs| - 1].now;
      RatioSplits(l.decay, s.ratio, s.lastActive, evs[0].now - s.lastUpdate, now - evs[0].now, l.hot, l.cold);
    } else {
      assert Run(t, evs[1..], l) == t;
    }
  }

  // ---------------------------------------------------------------- the object

  /** The temperature fields of a device. */
  class TemperatureModel {
    const laws: Laws
    var tempCurrent: Temp
    var tempCurrentRatio: real
    var tempLastActive: bool
    var tempLastUpdate: real
    var tempTimeout: Option<int>
    var interactiveAction: bool
    var cancelled: bool

    ghost function State(): Thermal
      reads this
    {
      Thermal(tempCurrent, tempCurrentRatio, tempLastActive, tempLastUpdate, tempTimeout, interactiveAction, cancelled)
    }

    constructor (l: Laws, now: real)
      ensures State() == Initial(now) && laws == l
    {
      laws := l;
      tempCurrent, tempCurrentRatio, tempLastActive, tempLastUpdate := Cold, COLD_THRESH, false, now;
      tempTimeout, interactiveAction, cancelled := None, false, false;
    }

    method AdvanceRatio(now: real)
      requires laws.hot > 0.0 && laws.cold > 0.0
      modifies this`tempCurrentRatio
      ensures tempCurrentRatio
           == Ratio(laws.decay, old(tempCurrentRatio), tempLastActive, now - tempLastUpdate, laws.hot, laws.cold)
    {
      var passedSeconds := now - tempLastUpdate;
      if tempLastActive {
        var alpha := laws.decay(passedSeconds / laws.hot);
        tempCurrentRatio := alpha * tempCurrentRatio + 1.0 - alpha;
      } else {
        var alpha := laws.decay(passedSeconds / laws.cold);
        tempCurrentRatio := alpha * tempCurrentRatio;
      }
    }

    method UpdateClass(isActive: bool) returns (nextThreshold: Option<real>)
      modifies this`tempCurrent
      ensures tempCurrent == Classify(tempCurrentRatio, old(tempCurrent))
      ensures nextThreshold == NextThreshold(tempCurrentRatio, isActive)
    {
      if tempCurrentRatio < COLD_THRESH {
        tempCurrent := Cold;
        nextThreshold := if isActive then Some(COLD_THRESH) else None;
      } else if tempCurrentRatio < HOT_WARM_THRESH {
        tempCurrent := Warm;
        nextThreshold := Some(if isActive then WARM_HOT_THRESH else COLD_THRESH);
      } else if tempCurrentRatio < WARM_HOT_THRESH {
        if tempCurrent != Hot {
          tempCurrent := Warm;
        }
        nextThreshold := Some(if isActive then WARM_HOT_THRESH else HOT_WARM_THRESH);
      } else {
        tempCurrent := Hot;
        nextThreshold := if isActive then None else Some(HOT_WARM_THRESH);
      }
    }

    method UpdateTemp(now: real, isActive: bool)
      requires laws.hot < 0.0 || (LawsHold(laws) && Inv(State()) && now >= tempLastUpdate)
      modifies this
      ensures laws.hot < 0.0 ==> State() == old(State())
      ensures laws.hot > 0.0 && laws.cold > 0.0 ==> State() == Update(old(State()), now, isActive, laws)
    {
      if laws.hot < 0.0 {
        return;
      }
      RatioStaysInRange(laws.decay, tempCurrentRatio, tempLastActive, now - tempLastUpdate, laws.hot, laws.cold);
      AdvanceRatio(now);
      tempLastActive := isActive;
      tempLastUpdate := now;
      var nextThreshold := UpdateClass(isActive);
      if tempCurrent == Hot && interactiveAction {
        cancelled := true;
      }
      tempTimeout := None;
      if nextThreshold.None? {
        return;
      }
      tempTimeout := Some(Timeout(laws.ln, tempCurrentRatio, isActive, nextThreshold.value, laws.hot, laws.cold));
    }

    /** The temperature guard of enroll, verify, identify and capture. */
    method Start(now: real) returns (started: bool)
      requires LawsHold(laws) && Inv(State()) && now >= tempLastUpdate && !interactiveAction
      modifies this
      ensures State() == StartInteractive(old(State()), now, laws)
      ensures started == interactiveAction
    {
      UpdateKeepsInv(State(), now, true, laws);
      UpdateTemp(now, true);
      if tempCurrent == Hot {
        UpdateTemp(now, false);
        return false;
      }
      interactiveAction, cancelled := true, false;
      return true;
    }

    /** The update when a task of any kind returns. */
    method Finish(now: real)
      requires LawsHold(laws) && Inv(State()) && now >= tempLastUpdate
      modifies this
      ensures State() == FinishAction(old(State()), now, laws)
    {
      interactiveAction, cancelled := false, false;
      UpdateTemp(now, false);
    }

    method UpdateTempTimeout(now: real)
      requires LawsHold(laws) && Inv(State()) && MayHappen(State(), TimerAt(now))
      modifies this
      ensures State() == Step(old(State()), TimerAt(now), laws)
    {
      UpdateTemp(now, tempLastActive);
    }

    /** Any event of a run: the object keeps the invariant of the timers and the hysteresis. */
    method Handle(ev: Event)
      requires LawsHold(laws) && Inv(State()) && MayHappen(State(), ev)
      modifies this
      ensures State() == Step(old(State()), ev, laws)
      ensures TimerInv(State(), laws) && Hysteresis(old(State()), State())
    {
      StepKeepsInv(State(), ev, laws);
      match ev {
        case StartAt(now) => var _ := Start(now);
        case FinishAt(now) => Finish(now);
        case TimerAt(now) => UpdateTempTimeout(now);
      }
    }
  }
}
