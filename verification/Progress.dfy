/** The percentage shown while a stick is written, from the stage, the clock and the bytes so far. */
module Progress {
  import opened Arithmetic

  const EXTRACT: int := 3

  /** Where stage `s` starts and ends. */
  function Low(s: int): int {
    if s == 0 then 0 else if s == 1 then 5 else if s == 2 then 10 else if s == 3 then 20 else 95
  }

  function High(s: int): int {
    if s == 0 then 5 else if s == 1 then 10 else if s == 2 then 20 else if s == 3 then 95 else 100
  }

  predicate IsStage(s: int) {
    0 <= s <= 4
  }

  /** How far into a range the clock alone leads: quickly at first, then slowly, never past it. */
  function Eased(range: int, elapsed: int): int {
    var p := if elapsed == 0 then 0
             else if elapsed < 5 then elapsed * range / 10
             else range / 2 + (elapsed - 5) * (range / 2) / 10;
    if p > range then range else if p < 0 then 0 else p
  }

  /** The part of progress_context_t the percentage depends on. */
  datatype View = View(total: nat, stage: int, low: int, high: int, since: int, bytes: nat) {

    /** The stage has its own range; the clock may have been set back since it was entered. */
    ghost predicate Valid() {
      IsStage(stage) && low == Low(stage) && high == High(stage)
    }

    /** Extraction goes by bytes once their total is known, all else by the clock. */
    predicate ByBytes() {
      stage == EXTRACT && total > 0
    }

    function Percent(now: int): int {
      if ByBytes() then
        20 + (if bytes * 75 / total > 75 then 75 else bytes * 75 / total)
      else
        low + Eased(high - low, now - since)
    }

    function Advance(next: int, now: int): View {
      if IsStage(next) then View(total, next, Low(next), High(next), now, 0) else this
    }
  }

  class Context {
    var total: nat
    var stage: int
    var low: int
    var high: int
    var since: int
    var bytes: nat

    /** The fields as one value. */
    function Look(): View
      reads this
    {
      View(total, stage, low, high, since, bytes)
    }

    /** progress_create */
    constructor (total: nat, now: int)
      ensures Look() == View(total, 0, 0, 5, now, 0) && Look().Valid()
    {
      this.total := total;
      stage := 0;
      low := 0;
      high := 5;
      since := now;
      bytes := 0;
    }

    /** progress_advance_stage; false is PROGRESS_ERR_INVALID. */
    method AdvanceStage(next: int, now: int) returns (ok: bool)
      modifies this
      ensures ok <==> IsStage(next)
      ensures Look() == old(Look()).Advance(next, now)
    {
      if next < 0 || next > 4 {
        return false;
      }
      stage := next;
      low := Low(next);
      high := High(next);
      since := now;
      bytes := 0;
      ok := true;
    }

    /** progress_update_extract */
    method UpdateExtract(written: nat)
      modifies this`bytes
      ensures Look() == old(Look()).(bytes := written)
    {
      bytes := written;
    }

    /** progress_get_percent: in a valid context, whatever the clock says, inside the range of the stage. */
    method GetPercent(now: int) returns (percent: int)
      requires Look().Valid()
      ensures percent == Look().Percent(now)
      ensures stage == 0 ==> 0 <= percent <= 5
      ensures stage == 1 ==> 5 <= percent <= 10
      ensures stage == 2 ==> 10 <= percent <= 20
      ensures stage == 3 ==> 20 <= percent <= 95
      ensures stage == 4 ==> 95 <= percent <= 100
    {
      InRange(Look(), now);
      if stage == EXTRACT && total > 0 {
        var done := bytes * 75 / total;
        if done > 75 {
          done := 75;
        }
        return 20 + done;
      }
      var range, elapsed := high - low, now - since;
      var done;
      if elapsed == 0 {
        done := 0;
      } else if elapsed < 5 {
        done := elapsed * range / (5 * 2);
      } else {
        done := range / 2 + (elapsed - 5) * (range / 2) / 10;
      }
      if done > range {
        done := range;
      }
      if done < 0 {
        done := 0;
      }
      percent := low + done;
    }
  }

  // ---------- whole runs ----------

  /** What can happen between two looks at the percentage. */
  datatype Step = Advance(stage: int, at: int) | Update(bytes: nat) | Tick(at: int)

  datatype State = State(view: View, now: int) {
    ghost predicate Valid() {
      view.Valid()
    }

    function Percent(): int {
      view.Percent(now)
    }
  }

  function Apply(s: State, step: Step): State {
    match step
    case Advance(stage, at) => State(s.view.Advance(stage, at), at)
    case Update(bytes) => s.(view := s.view.(bytes := bytes))
    case Tick(at) => s.(now := at)
  }

  /** Stages go up, the clock and the byte count do not go back. */
  predicate Orderly(s: State, step: Step) {
    match step
    case Advance(stage, at) => at >= s.now && (IsStage(stage) ==> stage > s.view.stage)
    case Update(bytes) => bytes >= s.view.bytes
    case Tick(at) => at >= s.now
  }

  function Run(s: State, steps: seq<Step>): State
    decreases |steps|
  {
    if steps == [] then s else Run(Apply(s, steps[0]), steps[1..])
  }

  predicate AllOrderly(s: State, steps: seq<Step>)
    decreases |steps|
  {
    steps == [] || (Orderly(s, steps[0]) && AllOrderly(Apply(s, steps[0]), steps[1..]))
  }

  lemma InRange(v: View, now: int)
    requires v.Valid()
    ensures Low(v.stage) <= v.Percent(now) <= High(v.stage)
  {
  }

  predicate IsRange(range: int) {
    range == 5 || range == 10 || range == 75
  }

  /** The first second at which the clock leads `share` into a range. */
  function FirstTo(range: int, share: int): int
    requires IsRange(range)
  {
    if share <= 0 then 0
    else if share <= 4 * range / 10 then (10 * share + range - 1) / range
    else if share <= range / 2 then 5
    else 5 + (10 * (share - range / 2) + range / 2 - 1) / (range / 2)
  }

  lemma ReachesFive(elapsed: int, share: int)
    requires 0 < share <= 5
    ensures Eased(5, elapsed) >= share <==> elapsed >= FirstTo(5, share)
  {
  }

  lemma ReachesTen(elapsed: int, share: int)
    requires 0 < share <= 10
    ensures Eased(10, elapsed) >= share <==> elapsed >= FirstTo(10, share)
  {
  }

  lemma ReachesEarly(elapsed: int, share: int)
    requires elapsed < 5 && 0 < share <= 75
    ensures Eased(75, elapsed) >= share <==> elapsed >= FirstTo(75, share)
  {
  }

  lemma ReachesLate(elapsed: int, share: int)
    requires elapsed >= 5 && 0 < share <= 75
    ensures Eased(75, elapsed) >= share <==> elapsed >= FirstTo(75, share)
  {
    LateSteps(elapsed - 5, share - 37);
    var p := 37 + (elapsed - 5) * 37 / 10;
    assert Eased(75, elapsed) == if p > 75 then 75 else p;
    assert FirstTo(75, share) == if share <= 30 then (10 * share + 74) / 75 else if share <= 37 then 5
                                 else 5 + (10 * (share - 37) + 36) / 37;
    hide Eased, FirstTo;
    if share <= 30 {
      assert (10 * share + 74) / 75 <= 5;
    }
  }

  /** After five seconds of the long range: 37 more in ten seconds. */
  lemma LateSteps(n: int, more: int)
    ensures n * 37 / 10 >= more <==> n >= (10 * more + 36) / 37
  {
    Tenths(n * 37, more);
    ThirtySevenths(n, 10 * more);
  }

  lemma Tenths(x: int, k: int)
    ensures x / 10 >= k <==> x >= 10 * k
  {
  }

  lemma ThirtySevenths(n: int, x: int)
    ensures n >= (x + 36) / 37 <==> n * 37 >= x
  {
  }

  /** That share is shown exactly from that second on. */
  lemma EasedReaches(range: int, elapsed: int, share: int)
    requires IsRange(range) && 0 < share <= range
    ensures Eased(range, elapsed) >= share <==> elapsed >= FirstTo(range, share)
  {
    hide Eased, FirstTo;
    if range == 5 {
      ReachesFive(elapsed, share);
    } else if range == 10 {
      ReachesTen(elapsed, share);
    } else if elapsed < 5 {
      ReachesEarly(elapsed, share);
    } else {
      ReachesLate(elapsed, share);
    }
  }

  lemma EasedMonotone(range: int, e: int, f: int)
    requires e <= f && IsRange(range)
    ensures Eased(range, e) <= Eased(range, f)
  {
    var share := Eased(range, e);
    if share > 0 {
      EasedReaches(range, e, share);
      EasedReaches(range, f, share);
    }
  }

  /** Inside a stage, later and with more bytes is never less. */
  lemma StageMonotone(v: View, w: View, now: int, later: int)
    requires v.Valid() && now <= later && w == v.(bytes := w.bytes) && v.bytes <= w.bytes
    ensures v.Percent(now) <= w.Percent(later)
  {
    hide Eased;
    if v.ByBytes() {
      DivMonotone(v.bytes * 75, w.bytes * 75, v.total);
    } else {
      EasedMonotone(v.high - v.low, now - v.since, later - v.since);
    }
  }

  lemma StepNeverFallsBack(s: State, step: Step)
    requires s.Valid() && Orderly(s, step)
    ensures Apply(s, step).Valid() && s.Percent() <= Apply(s, step).Percent()
  {
    var t := Apply(s, step);
    if step.Advance? && IsStage(step.stage) {
      InRange(s.view, s.now);
      InRange(t.view, t.now);
      assert High(s.view.stage) <= Low(step.stage);
    } else {
      StageMonotone(s.view, t.view, s.now, t.now);
    }
  }

  /** Over a whole orderly run the percentage never goes back and stays in the range of its stage. */
  lemma {:induction false} NeverFallsBack(s: State, steps: seq<Step>)
    requires s.Valid() && AllOrderly(s, steps)
    ensures Run(s, steps).Valid() && s.Percent() <= Run(s, steps).Percent()
    ensures var t := Run(s, steps).view; Low(t.stage) <= Run(s, steps).Percent() <= High(t.stage)
    decreases |steps|
  {
    hide View.Percent;
    if steps == [] {
      InRange(s.view, s.now);
    } else {
      StepNeverFallsBack(s, steps[0]);
      NeverFallsBack(Apply(s, steps[0]), steps[1..]);
    }
  }

  // ---------- what is shown, in numbers ----------

  /** During extraction the k-th of the 75 steps above 20 is shown exactly when k of 75 parts of the bytes are there. */
  lemma BytesShown(v: View, now: int, k: nat)
    requires v.Valid() && v.stage == 3 && v.total > 0 && k <= 75
    ensures v.Percent(now) >= 20 + k <==> v.bytes * 75 >= k * v.total
  {
    QuotientReaches(v.bytes * 75, v.total, k);
  }

  /** The ten steps of the layout by the clock, each from a fixed second on. */
  lemma LayoutShown(e: int)
    ensures var p := Eased(10, e);
            && (p >= 1 <==> e >= 1) && (p >= 2 <==> e >= 2) && (p >= 3 <==> e >= 3) && (p >= 4 <==> e >= 4)
            && (p >= 5 <==> e >= 5) && (p >= 6 <==> e >= 7) && (p >= 7 <==> e >= 9) && (p >= 8 <==> e >= 11)
            && (p >= 9 <==> e >= 13) && (p >= 10 <==> e >= 15)
  {
  }

  lemma ShortShown(e: int)
    ensures var p := Eased(5, e);
            && (p >= 1 <==> e >= 2) && (p >= 2 <==> e >= 4) && (p >= 3 <==> e >= 10) && (p >= 4 <==> e >= 15)
            && (p >= 5 <==> e >= 20)
  {
  }

  lemma LongShown(e: int)
    ensures (Eased(75, e) >= 37 <==> e >= 5) && (Eased(75, e) >= 75 <==> e >= 16)
  {
    EasedReaches(75, e, 37);
    EasedReaches(75, e, 75);
    assert FirstTo(75, 37) == 5 && FirstTo(75, 75) == 16;
    hide Eased, FirstTo;
  }

  /**
    By the clock each step is shown from a fixed second on: the layout's ten, the five of the other short
    stages, and the middle and the end of an extraction whose total is not known.
   */
  lemma ClockShown(v: View, now: int)
    requires v.Valid() && !v.ByBytes()
    ensures var e := now - v.since; var p := v.Percent(now) - v.low;
            if v.stage == 3 then
              (p >= 37 <==> e >= 5) && (p >= 75 <==> e >= 16)
            else if v.stage == 2 then
              && (p >= 1 <==> e >= 1) && (p >= 2 <==> e >= 2) && (p >= 3 <==> e >= 3) && (p >= 4 <==> e >= 4)
              && (p >= 5 <==> e >= 5) && (p >= 6 <==> e >= 7) && (p >= 7 <==> e >= 9) && (p >= 8 <==> e >= 11)
              && (p >= 9 <==> e >= 13) && (p >= 10 <==> e >= 15)
            else
              && (p >= 1 <==> e >= 2) && (p >= 2 <==> e >= 4) && (p >= 3 <==> e >= 10) && (p >= 4 <==> e >= 15)
              && (p >= 5 <==> e >= 20)
  {
    hide Eased;
    if v.stage == 3 {
      LongShown(now - v.since);
    } else if v.stage == 2 {
      LayoutShown(now - v.since);
    } else {
      ShortShown(now - v.since);
    }
  }

  // ---------- steps that are not orderly ----------

  /** Entering a stage falls back exactly when it lies behind, or is the same one and had begun to count. */
  lemma EntryFallsBackExactly(s: State, stage: int, at: int)
    requires s.Valid() && IsStage(stage)
    ensures Apply(s, Advance(stage, at)).Percent() < s.Percent()
            <==> stage < s.view.stage || (stage == s.view.stage && s.Percent() > Low(stage))
  {
    var t := Apply(s, Advance(stage, at));
    InRange(s.view, s.now);
    EntryStartsLow(s, stage, at);
    assert stage < s.view.stage ==> High(stage) <= Low(s.view.stage) && Low(stage) < High(stage);
    assert stage > s.view.stage ==> High(s.view.stage) <= Low(stage);
  }

  lemma EntryStartsLow(s: State, stage: int, at: int)
    requires IsStage(stage)
    ensures Apply(s, Advance(stage, at)).Percent() == Low(stage)
  {
    var t := Apply(s, Advance(stage, at));
    if stage == EXTRACT && s.view.total > 0 {
      DivMonotone(0, 0, s.view.total);
      assert t.view.bytes * 75 == 0;
    }
  }

  /** A byte count falls back exactly when it does not reach the share of the total that is shown. */
  lemma UpdateFallsBackExactly(s: State, bytes: nat)
    requires s.Valid()
    ensures Apply(s, Update(bytes)).Percent() < s.Percent()
            <==> s.view.ByBytes() && bytes * 75 < (s.Percent() - 20) * s.view.total
  {
    if s.view.ByBytes() {
      InRange(s.view, s.now);
      QuotientReaches(bytes * 75, s.view.total, s.Percent() - 20);
    }
  }

  /** The stage goes by the clock, and the clock is then behind the second that first leads to the share shown. */
  ghost predicate SetBack(s: State, at: int)
    requires s.Valid()
  {
    var low, high := Low(s.view.stage), High(s.view.stage);
    !s.view.ByBytes() && s.Percent() > low && at - s.view.since < FirstTo(high - low, s.Percent() - low)
  }

  /** A look at the clock falls back exactly when the clock has been set back so far. */
  lemma TickFallsBackExactly(s: State, at: int)
    requires s.Valid()
    ensures Apply(s, Tick(at)).Percent() < s.Percent() <==> SetBack(s, at)
  {
    InRange(s.view, s.now);
    var v := s.view;
    hide Eased, FirstTo;
    if !v.ByBytes() && s.Percent() > v.low {
      EasedReaches(v.high - v.low, at - v.since, s.Percent() - v.low);
    } else {
      InRange(v, at);
    }
  }

  /** What makes the percentage fall back. A stage out of range is no entry, only a look at the clock. */
  ghost predicate Falls(s: State, step: Step)
    requires s.Valid()
  {
    match step
    case Advance(stage, at) =>
      if IsStage(stage) then stage < s.view.stage || (stage == s.view.stage && s.Percent() > Low(stage))
      else SetBack(s, at)
    case Update(bytes) => s.view.ByBytes() && bytes * 75 < (s.Percent() - 20) * s.view.total
    case Tick(at) => SetBack(s, at)
  }

  /** Of all steps, these and no others let the percentage fall back. */
  lemma FallsBackExactly(s: State, step: Step)
    requires s.Valid()
    ensures Apply(s, step).Percent() < s.Percent() <==> Falls(s, step)
  {
    hide View.Percent, FirstTo;
    match step
    case Advance(stage, at) =>
      if IsStage(stage) {
        EntryFallsBackExactly(s, stage, at);
      } else {
        TickFallsBackExactly(s, at);
      }
    case Update(bytes) => UpdateFallsBackExactly(s, bytes);
    case Tick(at) => TickFallsBackExactly(s, at);
  }

  /**
    All of them happen: at the end of an image of 100 bytes, going through it once more; and four
    seconds into the first stage, with the clock set back by as much.
   */
  lemma FallsBack()
    ensures var s := State(View(100, EXTRACT, 20, 95, 0, 100), 0);
            && s.Valid() && s.Percent() == 95
            && Apply(s, Advance(EXTRACT, 0)).Percent() == 20 && Apply(s, Update(0)).Percent() == 20
    ensures var s := State(View(100, 0, 0, 5, 0, 0), 4);
            s.Valid() && s.Percent() == 2 && Apply(s, Tick(0)).Percent() == 0
  {
  }
}
