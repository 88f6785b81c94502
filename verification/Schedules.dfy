/** Who runs next: reserved budgets for interactive components, priorities with ageing for the rest. */
module Schedules {
  import opened ObjectIds

  const COMPONENTS: nat := 4
  const AGE_MAX: nat := 64
  const PRIORITY_MAX: nat := 7
  const WAIT_MAX: nat := AGE_MAX + COMPONENTS
  /** The top bit of a score. */
  const INTERACTIVE: nat := 0x8000_0000_0000_0000

  datatype Policy = Policy(interactive: bool, priority: nat, budget: nat)

  datatype Plan = Plan(frameTicks: nat, frameCycles: nat, policies: seq<Policy>, lastRun: seq<nat>, used: seq<nat>,
                       frameStart: nat, consumed: nat, cursor: nat)

  predicate Shaped(s: Plan) {
    |s.policies| == |s.lastRun| == |s.used| == COMPONENTS && s.cursor < COMPONENTS
  }

  // ---- Reservation -----------------------------------------------------------------------------

  /** Budget an interactive component has not used yet. */
  function Unused(s: Plan, i: nat): nat
    requires Shaped(s) && i < COMPONENTS
  {
    if s.policies[i].interactive && s.used[i] < s.policies[i].budget then s.policies[i].budget - s.used[i] else 0
  }

  function Reserved(s: Plan, n: nat): nat
    requires Shaped(s) && n <= COMPONENTS
  {
    if n == 0 then 0 else Reserved(s, n - 1) + Unused(s, n - 1)
  }

  /** Budgets promised to interactive components. */
  function Promised(policies: seq<Policy>, n: nat): nat
    requires n <= |policies|
  {
    if n == 0 then 0 else Promised(policies, n - 1) + if policies[n - 1].interactive then policies[n - 1].budget else 0
  }

  ghost predicate PoliciesOk(s: Plan) {
    && Shaped(s) && Promised(s.policies, COMPONENTS) <= s.frameCycles
    && forall i :: 0 <= i < COMPONENTS ==> s.policies[i].priority <= PRIORITY_MAX && s.policies[i].budget <= s.frameCycles
  }

  /** What was consumed leaves room for every unused interactive budget. */
  ghost predicate Covered(s: Plan) {
    Shaped(s) && s.consumed + Reserved(s, COMPONENTS) <= s.frameCycles
  }

  predicate Eligible(s: Plan, ready: seq<bool>, i: nat)
    requires Shaped(s) && |ready| == COMPONENTS && i < COMPONENTS
  {
    var p, reserved := s.policies[i], Reserved(s, COMPONENTS);
    && ready[i] && s.used[i] < p.budget && s.consumed < s.frameCycles
    && (p.interactive || (reserved < s.frameCycles - s.consumed
                          && p.budget - s.used[i] <= s.frameCycles - s.consumed - reserved))
  }

  function Score(s: Plan, i: nat, now: nat): nat
    requires Shaped(s) && i < COMPONENTS
  {
    var age := if now >= s.lastRun[i] then now - s.lastRun[i] else 0;
    (if s.policies[i].interactive then INTERACTIVE else 0) + s.policies[i].priority * 8 + if age > AGE_MAX then AGE_MAX else age
  }

  lemma {:induction false} ReservedHas(s: Plan, n: nat, i: nat)
    requires Shaped(s) && i < n <= COMPONENTS
    ensures Unused(s, i) <= Reserved(s, n)
    decreases n
  {
    if i < n - 1 {
      ReservedHas(s, n - 1, i);
    }
  }

  /** While the frame is covered, an interactive component with budget left can always run. */
  lemma InteractiveEligible(s: Plan, ready: seq<bool>, i: nat)
    requires Covered(s) && |ready| == COMPONENTS && i < COMPONENTS
    requires ready[i] && s.policies[i].interactive && s.used[i] < s.policies[i].budget
    ensures Eligible(s, ready, i)
  {
    ReservedHas(s, COMPONENTS, i);
  }

  lemma InteractiveWins(s: Plan, i: nat, j: nat, now: nat)
    requires PoliciesOk(s) && i < COMPONENTS && j < COMPONENTS && s.policies[i].interactive && !s.policies[j].interactive
    ensures Score(s, j, now) < Score(s, i, now)
  {
  }

  // ---- Frames and charging ----------------------------------------------------------------------

  function Refreshed(s: Plan, now: nat): Plan {
    if now >= s.frameStart && now - s.frameStart >= s.frameTicks
    then s.(frameStart := now, consumed := 0, used := seq(COMPONENTS, _ => 0)) else s
  }

  function AddSaturated(a: nat, b: nat): nat {
    if b > UINT64_MAX - a then UINT64_MAX else a + b
  }

  function Charged(s: Plan, i: nat, now: nat, elapsed: nat): Plan
    requires Shaped(s) && i < COMPONENTS
  {
    s.(used := s.used[i := AddSaturated(s.used[i], elapsed)], consumed := AddSaturated(s.consumed, elapsed),
       lastRun := s.lastRun[i := now], cursor := (i + 1) % COMPONENTS)
  }

  lemma {:induction false} FreshReserved(s: Plan, n: nat)
    requires Shaped(s) && n <= COMPONENTS && forall i :: 0 <= i < COMPONENTS ==> s.used[i] == 0
    ensures Reserved(s, n) == Promised(s.policies, n)
    decreases n
  {
    if n > 0 {
      FreshReserved(s, n - 1);
    }
  }

  /** A new frame is covered whatever happened before. */
  lemma NewFrameCovered(s: Plan, now: nat)
    requires PoliciesOk(s) && (Covered(s) || (now >= s.frameStart && now - s.frameStart >= s.frameTicks))
    ensures Covered(Refreshed(s, now)) && PoliciesOk(Refreshed(s, now))
  {
    var r := Refreshed(s, now);
    if now >= s.frameStart && now - s.frameStart >= s.frameTicks {
      FreshReserved(r, COMPONENTS);
    }
  }

  lemma {:induction false} ReservedExcept(s: Plan, t: Plan, n: nat, i: nat)
    requires Shaped(s) && Shaped(t) && n <= COMPONENTS && i < COMPONENTS
    requires forall k :: 0 <= k < COMPONENTS && k != i ==> Unused(s, k) == Unused(t, k)
    ensures Reserved(s, n) + (if i < n then Unused(t, i) else 0) == Reserved(t, n) + (if i < n then Unused(s, i) else 0)
    decreases n
  {
    if n > 0 {
      ReservedExcept(s, t, n - 1, i);
    }
  }

  lemma ChargedReserved(s: Plan, i: nat, now: nat, elapsed: nat)
    requires Shaped(s) && i < COMPONENTS && s.used[i] <= UINT64_MAX && s.policies[i].budget <= UINT64_MAX
    ensures var t := Charged(s, i, now, elapsed);
            && Shaped(t)
            && Reserved(t, COMPONENTS) == Reserved(s, COMPONENTS) - Unused(s, i) + Unused(t, i)
            && Unused(t, i) == if Unused(s, i) > elapsed then Unused(s, i) - elapsed else 0
  {
    var t := Charged(s, i, now, elapsed);
    ReservedExcept(s, t, COMPONENTS, i);
    ReservedHas(s, COMPONENTS, i);
  }

  /**
   * Exactly how far a handler may go without eating into what interactive components were
   * promised: its own unused budget, if it is interactive, plus what is not reserved at all.
   */
  lemma CoveredExactly(s: Plan, i: nat, now: nat, elapsed: nat)
    requires Covered(s) && i < COMPONENTS && s.used[i] <= UINT64_MAX && s.policies[i].budget <= UINT64_MAX
    requires s.consumed + elapsed <= UINT64_MAX
    ensures Covered(Charged(s, i, now, elapsed)) <==>
            elapsed <= Unused(s, i) + (s.frameCycles - s.consumed - Reserved(s, COMPONENTS))
  {
    ChargedReserved(s, i, now, elapsed);
  }

  /** A handler that stays within its remaining budget keeps the frame covered. */
  lemma WithinBudgetCovered(s: Plan, ready: seq<bool>, i: nat, now: nat, elapsed: nat)
    requires Covered(s) && |ready| == COMPONENTS && i < COMPONENTS && Eligible(s, ready, i) && s.frameCycles <= UINT64_MAX
    requires s.policies[i].budget <= s.frameCycles && elapsed <= s.policies[i].budget - s.used[i]
    ensures Covered(Charged(s, i, now, elapsed))
  {
    ReservedHas(s, COMPONENTS, i);
    CoveredExactly(s, i, now, elapsed);
  }

  /** Giving one component another policy in the middle of a frame. */
  function Reconfigured(s: Plan, i: nat, p: Policy): Plan
    requires Shaped(s) && i < COMPONENTS
  {
    s.(policies := s.policies[i := p])
  }

  /** It keeps the frame covered exactly when the slack pays for what the component may newly claim. */
  lemma ReconfiguredExactly(s: Plan, i: nat, p: Policy)
    requires Covered(s) && i < COMPONENTS
    ensures Covered(Reconfigured(s, i, p)) <==>
            (if p.interactive && s.used[i] < p.budget then p.budget - s.used[i] else 0)
            <= Unused(s, i) + (s.frameCycles - s.consumed - Reserved(s, COMPONENTS))
  {
    ReservedExcept(s, Reconfigured(s, i, p), COMPONENTS, i);
    ReservedHas(s, COMPONENTS, i);
  }

  // ---- Selection -------------------------------------------------------------------------------

  /** How late in the scan from the cursor a component comes. */
  function Turn(s: Plan, i: nat): nat {
    (i + COMPONENTS - s.cursor % COMPONENTS) % COMPONENTS
  }

  /** The best of the eligible, the first of them in scanning order. */
  ghost predicate Best(s: Plan, ready: seq<bool>, now: nat, i: nat)
    requires Shaped(s) && |ready| == COMPONENTS
  {
    && i < COMPONENTS && Eligible(s, ready, i)
    && forall j :: 0 <= j < COMPONENTS && Eligible(s, ready, j) ==>
         Score(s, j, now) < Score(s, i, now) || (Score(s, j, now) == Score(s, i, now) && Turn(s, i) <= Turn(s, j))
  }

  /** At most one component is best. */
  lemma BestIsUnique(s: Plan, ready: seq<bool>, now: nat, i: nat, j: nat)
    requires Shaped(s) && |ready| == COMPONENTS && Best(s, ready, now, i) && Best(s, ready, now, j)
    ensures i == j
  {
    assert Turn(s, i) == Turn(s, j);
  }

  method SumReserved(s: Plan) returns (reserved: nat)
    requires Shaped(s)
    ensures reserved == Reserved(s, COMPONENTS)
  {
    reserved := 0;
    var i := 0;
    while i < COMPONENTS
      invariant 0 <= i <= COMPONENTS && reserved == Reserved(s, i)
    {
      if s.policies[i].interactive && s.used[i] < s.policies[i].budget {
        reserved := reserved + (s.policies[i].budget - s.used[i]);
      }
      i := i + 1;
    }
  }

  method Select(s: Plan, ready: seq<bool>, now: nat) returns (selected: Option<nat>)
    requires Shaped(s) && |ready| == COMPONENTS
    ensures selected.Some? ==> Best(s, ready, now, selected.value)
    ensures selected.None? ==> forall i :: 0 <= i < COMPONENTS ==> !Eligible(s, ready, i)
    ensures selected.Some? && PoliciesOk(s) ==>
              && selected.value < COMPONENTS && Eligible(s, ready, selected.value)
              && forall j :: 0 <= j < COMPONENTS && j != selected.value && Eligible(s, ready, j) ==>
                   Precedes(s, now, selected.value, j)
  {
    hide Eligible, Score, Precedes, Promised;
    var reserved := SumReserved(s);
    selected := None;
    var score, offset := 0, 0;
    while offset < COMPONENTS
      invariant 0 <= offset <= COMPONENTS
      invariant selected.Some? ==> selected.value < COMPONENTS && Eligible(s, ready, selected.value)
                                   && score == Score(s, selected.value, now) && Turn(s, selected.value) < offset
      invariant forall j :: 0 <= j < COMPONENTS && Turn(s, j) < offset && Eligible(s, ready, j) ==>
                  && selected.Some?
                  && (Score(s, j, now) < score || (Score(s, j, now) == score && Turn(s, selected.value) <= Turn(s, j)))
    {
      var i := (s.cursor + offset) % COMPONENTS;
      TurnOf(s, offset);
      assert forall j :: 0 <= j < COMPONENTS && Turn(s, j) == offset ==> j == i;
      if Eligible(s, ready, i) {
        var candidate := Score(s, i, now);
        if selected.None? || candidate > score {
          selected, score := Some(i), candidate;
        }
      }
      offset := offset + 1;
    }
    if selected.Some? && PoliciesOk(s) {
      forall j | 0 <= j < COMPONENTS && j != selected.value && Eligible(s, ready, j)
        ensures Precedes(s, now, selected.value, j)
      {
        BestMeans(s, now, selected.value, j);
      }
    }
  }

  lemma TurnOf(s: Plan, offset: nat)
    requires Shaped(s) && offset < COMPONENTS
    ensures Turn(s, (s.cursor + offset) % COMPONENTS) == offset
    ensures forall j :: 0 <= j < COMPONENTS && Turn(s, j) == offset ==> j == (s.cursor + offset) % COMPONENTS
  {
  }

  /** An interactive component with budget left is never passed over for one that is not. */
  lemma InteractiveFirst(s: Plan, ready: seq<bool>, now: nat, i: nat, chosen: nat)
    requires PoliciesOk(s) && Covered(s) && |ready| == COMPONENTS && i < COMPONENTS
    requires ready[i] && s.policies[i].interactive && s.used[i] < s.policies[i].budget && Best(s, ready, now, chosen)
    ensures s.policies[chosen].interactive
  {
    InteractiveEligible(s, ready, i);
    if !s.policies[chosen].interactive {
      InteractiveWins(s, i, chosen, now);
    }
  }

  // ---- Bounded waiting -------------------------------------------------------------------------

  /** One tick: the plan before it, who was ready, and how long the chosen handler ran. */
  datatype Tick = Tick(plan: Plan, ready: seq<bool>, chosen: nat, elapsed: nat)

  /** A handler was chosen at this time and run. */
  ghost predicate Ticked(t: Tick, now: nat) {
    PoliciesOk(t.plan) && |t.ready| == COMPONENTS && Best(Refreshed(t.plan, now), t.ready, now, t.chosen)
  }

  ghost predicate Quiet(t: Tick, now: nat)
    requires Ticked(t, now)
  {
    forall i :: 0 <= i < COMPONENTS && t.plan.policies[i].interactive ==> !Eligible(Refreshed(t.plan, now), t.ready, i)
  }

  /** Consecutive ticks; policies and budgets may change in between, run times do not. */
  ghost predicate Consecutive(ticks: seq<Tick>, start: nat) {
    && (forall k :: 0 <= k < |ticks| ==> Ticked(ticks[k], start + k) && Quiet(ticks[k], start + k))
    && (forall k :: 0 <= k < |ticks| - 1 ==>
          ticks[k + 1].plan.lastRun == ticks[k].plan.lastRun[ticks[k].chosen := start + k])
  }

  lemma {:induction false} NotRunSince(ticks: seq<Tick>, start: nat, i: nat, k: nat)
    requires Consecutive(ticks, start) && k < |ticks| && i < COMPONENTS && ticks[0].plan.lastRun[i] <= start
    requires forall n :: 0 <= n < k ==> ticks[n].chosen != i
    ensures ticks[k].plan.lastRun[i] <= start
    decreases k
  {
    hide Best, Quiet;
    if k > 0 {
      NotRunSince(ticks, start, i, k - 1);
    }
  }

  lemma {:induction false} RunSince(ticks: seq<Tick>, start: nat, k: nat, n: nat)
    requires Consecutive(ticks, start) && k < n < |ticks|
    ensures ticks[k].chosen < COMPONENTS && ticks[n].plan.lastRun[ticks[k].chosen] >= start + k
    decreases n
  {
    hide Quiet;
    if n > k + 1 {
      RunSince(ticks, start, k, n - 1);
    }
  }

  /** Old enough, a component outscores whoever ran in the last few ticks. */
  lemma WaitingWins(ticks: seq<Tick>, start: nat, i: nat, k: nat, n: nat)
    requires Consecutive(ticks, start) && AGE_MAX <= k < n < |ticks| && n - k < 8 && i < COMPONENTS
    requires ticks[n].plan.lastRun[i] <= start && Eligible(Refreshed(ticks[n].plan, start + n), ticks[n].ready, i)
    ensures ticks[n].chosen != ticks[k].chosen
  {
    hide Eligible;
    RunSince(ticks, start, k, n);
    var s, now := Refreshed(ticks[n].plan, start + n), start + n;
    assert Ticked(ticks[n], now) && Quiet(ticks[n], now);
    assert Score(s, i, now) >= AGE_MAX;
    assert !s.policies[ticks[n].chosen].interactive;
    assert !s.policies[ticks[k].chosen].interactive ==> Score(s, ticks[k].chosen, now) < AGE_MAX;
  }

  /** Four different components are all there are. */
  lemma SomeoneIs(a: nat, b: nat, c: nat, d: nat, i: nat)
    requires a < COMPONENTS && b < COMPONENTS && c < COMPONENTS && d < COMPONENTS && i < COMPONENTS
    requires a != b && a != c && a != d && b != c && b != d && c != d
    ensures i == a || i == b || i == c || i == d
  {
  }

  lemma LaterDiffers(ticks: seq<Tick>, start: nat, i: nat, m: nat, n: nat)
    requires Consecutive(ticks, start) && |ticks| == WAIT_MAX && i < COMPONENTS && ticks[0].plan.lastRun[i] <= start
    requires forall k :: 0 <= k < |ticks| ==> Eligible(Refreshed(ticks[k].plan, start + k), ticks[k].ready, i)
    requires AGE_MAX <= m < n < WAIT_MAX && forall k :: 0 <= k < n ==> ticks[k].chosen != i
    ensures ticks[m].chosen != ticks[n].chosen
  {
    hide Eligible, Quiet, Best;
    NotRunSince(ticks, start, i, n);
    WaitingWins(ticks, start, i, m, n);
  }

  /** Whoever stays eligible is chosen within the ageing bound plus one round. */
  lemma BoundedWaiting(ticks: seq<Tick>, start: nat, i: nat)
    requires Consecutive(ticks, start) && |ticks| == WAIT_MAX && i < COMPONENTS && ticks[0].plan.lastRun[i] <= start
    requires forall k :: 0 <= k < |ticks| ==> Eligible(Refreshed(ticks[k].plan, start + k), ticks[k].ready, i)
    ensures exists k :: 0 <= k < |ticks| && ticks[k].chosen == i
  {
    hide Eligible, Quiet;
    var a, b, c, d := ticks[64].chosen, ticks[65].chosen, ticks[66].chosen, ticks[67].chosen;
    if forall k :: 0 <= k < 67 ==> ticks[k].chosen != i {
      LaterDiffers(ticks, start, i, 64, 65);
      LaterDiffers(ticks, start, i, 64, 66);
      LaterDiffers(ticks, start, i, 64, 67);
      LaterDiffers(ticks, start, i, 65, 66);
      LaterDiffers(ticks, start, i, 65, 67);
      LaterDiffers(ticks, start, i, 66, 67);
      SomeoneIs(a, b, c, d, i);
      assert ticks[67].chosen == i;
    }
  }

  // ---- The scheduler in place --------------------------------------------------------------------

  /** What a chosen handler does: how long it runs, whether it commits, what it leaves in memory. */
  datatype Handler = Handler(elapsed: nat, commits: bool, memory: seq<bv8>)

  datatype StepResult = Idle | Ran(chosen: nat) | Failed(chosen: nat) | Refused

  /** A handler was run, whether or not it committed. */
  predicate Handled(r: StepResult) {
    r.Ran? || r.Failed?
  }

  /** What the outside does at one tick. */
  datatype Input = Input(runnable: seq<bool>, begins: bool, handler: Handler)

  function Ready(runnable: seq<bool>, exited: seq<bool>): (ready: seq<bool>)
    requires |runnable| == |exited| == COMPONENTS
    ensures |ready| == COMPONENTS && forall i :: 0 <= i < COMPONENTS ==> (ready[i] <==> runnable[i] && !exited[i])
  {
    seq(COMPONENTS, i requires 0 <= i < COMPONENTS => runnable[i] && !exited[i])
  }

  /** Exactly what a step at this time makes of a plan. */
  ghost predicate Stepped(plan: Plan, exited: seq<bool>, input: Input, now: nat, result: StepResult, after: Plan, exited': seq<bool>)
    requires Shaped(plan) && |input.runnable| == |exited| == COMPONENTS
  {
    var s, ready := Refreshed(plan, now), Ready(input.runnable, exited);
    if now < plan.frameStart then result == Refused && after == plan && exited' == exited
    else if forall i :: 0 <= i < COMPONENTS ==> !Eligible(s, ready, i) then result == Idle && after == s && exited' == exited
    else if !input.begins then result == Refused && after == s && exited' == exited
    else
      && Handled(result) && (result.Ran? <==> input.handler.commits) && Best(s, ready, now, result.chosen)
      && after == Charged(s, result.chosen, now, input.handler.elapsed)
      && exited' == if result.Failed? then exited[result.chosen := true] else exited
  }

  // ---- What a step means ---------------------------------------------------------------------------

  /** Cycles a component has had in the frame this tick belongs to. */
  ghost function Spent(s: Plan, now: nat, i: nat): nat
    requires Shaped(s) && i < COMPONENTS
  {
    if s.frameStart + s.frameTicks <= now then 0 else s.used[i]
  }

  /** Cycles an interactive component may still claim in it. */
  ghost function Claim(s: Plan, now: nat, i: nat): nat
    requires Shaped(s) && i < COMPONENTS
  {
    if s.policies[i].interactive && Spent(s, now, i) <= s.policies[i].budget then s.policies[i].budget - Spent(s, now, i) else 0
  }

  /** Ready, with budget left, in a frame with cycles left; the rest must leave every claim untouched. */
  ghost predicate CanRun(s: Plan, runnable: seq<bool>, exited: seq<bool>, now: nat, i: nat)
    requires Shaped(s) && |runnable| == |exited| == COMPONENTS && i < COMPONENTS
  {
    var total := if s.frameStart + s.frameTicks <= now then 0 else s.consumed;
    && runnable[i] && !exited[i] && Spent(s, now, i) < s.policies[i].budget && total < s.frameCycles
    && (s.policies[i].interactive
        || total + Claim(s, now, 0) + Claim(s, now, 1) + Claim(s, now, 2) + Claim(s, now, 3)
           + (s.policies[i].budget - Spent(s, now, i)) <= s.frameCycles)
  }

  /** How long a component has waited, as far as that counts. */
  ghost function Waited(s: Plan, now: nat, i: nat): nat
    requires Shaped(s) && i < COMPONENTS
  {
    if now <= s.lastRun[i] then 0 else if now - s.lastRun[i] >= 64 then 64 else now - s.lastRun[i]
  }

  /** Interactive before others, then eight for every step of priority plus the waiting time, then the rotation. */
  ghost predicate Precedes(s: Plan, now: nat, i: nat, j: nat)
    requires Shaped(s) && i < COMPONENTS && j < COMPONENTS
  {
    var a, b := 8 * s.policies[i].priority + Waited(s, now, i), 8 * s.policies[j].priority + Waited(s, now, j);
    || (s.policies[i].interactive && !s.policies[j].interactive)
    || (s.policies[i].interactive == s.policies[j].interactive
        && (a > b || (a == b && (if i >= s.cursor then i else i + 4) < (if j >= s.cursor then j else j + 4))))
  }

  /** Only these cycles were added, and only to the component that ran. */
  ghost predicate Accounted(s: Plan, now: nat, chosen: nat, elapsed: nat, after: Plan)
    requires Shaped(s) && chosen < COMPONENTS
  {
    && Shaped(after) && after.policies == s.policies && after.frameTicks == s.frameTicks && after.frameCycles == s.frameCycles
    && after.frameStart == (if s.frameStart + s.frameTicks <= now then now else s.frameStart)
    && after.lastRun == s.lastRun[chosen := now] && after.cursor == (if chosen == 3 then 0 else chosen + 1)
    && (forall k :: 0 <= k < COMPONENTS && k != chosen ==> after.used[k] == Spent(s, now, k))
    && (var used := Spent(s, now, chosen) + elapsed; after.used[chosen] == if used <= UINT64_MAX then used else UINT64_MAX)
    && (var total := (if s.frameStart + s.frameTicks <= now then 0 else s.consumed) + elapsed;
        after.consumed == if total <= UINT64_MAX then total else UINT64_MAX)
  }

  /** The step ran the component that comes first, and charged it, or there was none. */
  ghost predicate Rightly(s: Plan, exited: seq<bool>, input: Input, now: nat, result: StepResult, after: Plan)
    requires Shaped(s) && |input.runnable| == |exited| == COMPONENTS
  {
    && (result == Idle <==> now >= s.frameStart && forall i :: 0 <= i < COMPONENTS ==> !CanRun(s, input.runnable, exited, now, i))
    && (Handled(result) <==> now >= s.frameStart && result != Idle && input.begins)
    && (result.Ran? ==> input.handler.commits) && (result.Failed? ==> !input.handler.commits)
    && (Handled(result) ==>
          && result.chosen < COMPONENTS && CanRun(s, input.runnable, exited, now, result.chosen)
          && Accounted(s, now, result.chosen, input.handler.elapsed, after)
          && forall j :: 0 <= j < COMPONENTS && j != result.chosen && CanRun(s, input.runnable, exited, now, j) ==>
               Precedes(s, now, result.chosen, j))
  }

  lemma ReservedSum(s: Plan)
    requires Shaped(s)
    ensures Reserved(s, COMPONENTS) == Unused(s, 0) + Unused(s, 1) + Unused(s, 2) + Unused(s, 3)
  {
    assert Reserved(s, 0) == 0;
    assert Reserved(s, 1) == Reserved(s, 0) + Unused(s, 0);
    assert Reserved(s, 2) == Reserved(s, 1) + Unused(s, 1);
    assert Reserved(s, 3) == Reserved(s, 2) + Unused(s, 2);
    assert Reserved(s, 4) == Reserved(s, 3) + Unused(s, 3);
  }

  lemma EligibleMeans(s: Plan, runnable: seq<bool>, exited: seq<bool>, now: nat, i: nat)
    requires Shaped(s) && |runnable| == |exited| == COMPONENTS && i < COMPONENTS && s.frameStart <= now
    ensures Shaped(Refreshed(s, now))
    ensures Eligible(Refreshed(s, now), Ready(runnable, exited), i) <==> CanRun(s, runnable, exited, now, i)
  {
    hide Reserved;
    ReservedSum(Refreshed(s, now));
  }

  lemma BestMeans(s: Plan, now: nat, i: nat, j: nat)
    requires PoliciesOk(s) && i < COMPONENTS && j < COMPONENTS && i != j
    requires Score(s, j, now) < Score(s, i, now) || (Score(s, j, now) == Score(s, i, now) && Turn(s, i) <= Turn(s, j))
    ensures Precedes(s, now, i, j)
  {
    hide Promised;
    assert Turn(s, i) == if i >= s.cursor then i - s.cursor else i + 4 - s.cursor;
    assert Turn(s, j) == if j >= s.cursor then j - s.cursor else j + 4 - s.cursor;
  }

  /** Every step, of every run, does what it should, with nothing left to the helper functions. */
  lemma SteppedMeans(s: Plan, exited: seq<bool>, input: Input, now: nat, result: StepResult, after: Plan, exited': seq<bool>)
    requires PoliciesOk(s) && |input.runnable| == |exited| == COMPONENTS
    requires Stepped(s, exited, input, now, result, after, exited')
    ensures Rightly(s, exited, input, now, result, after)
  {
    hide Eligible, CanRun, Score, Promised, Precedes, Turn, Ready;
    if s.frameStart <= now {
      forall i | 0 <= i < COMPONENTS
        ensures Eligible(Refreshed(s, now), Ready(input.runnable, exited), i) <==> CanRun(s, input.runnable, exited, now, i)
      {
        EligibleMeans(s, input.runnable, exited, now, i);
      }
      if Handled(result) {
        var r := Refreshed(s, now);
        forall j | 0 <= j < COMPONENTS && j != result.chosen && CanRun(s, input.runnable, exited, now, j)
          ensures Precedes(s, now, result.chosen, j)
        {
          BestMeans(r, now, result.chosen, j);
          SamePrecedence(s, now, result.chosen, j);
        }
      }
    }
  }

  lemma SamePrecedence(s: Plan, now: nat, i: nat, j: nat)
    requires Shaped(s) && i < COMPONENTS && j < COMPONENTS
    ensures Precedes(Refreshed(s, now), now, i, j) <==> Precedes(s, now, i, j)
  {
  }

  /**
   * What priorities are worth, in every run: of two that could run, the higher priority goes first
   * at equal waiting time, the longer waiting at equal priority, and one step of priority beats
   * less than eight ticks of waiting.
   */
  lemma PrioritiesMean(s: Plan, exited: seq<bool>, input: Input, now: nat, result: StepResult, after: Plan, j: nat)
    requires Shaped(s) && |input.runnable| == |exited| == COMPONENTS && Rightly(s, exited, input, now, result, after)
    requires Handled(result) && j < COMPONENTS && CanRun(s, input.runnable, exited, now, j)
    requires s.policies[j].interactive == s.policies[result.chosen].interactive
    ensures Waited(s, now, j) == Waited(s, now, result.chosen) ==> s.policies[result.chosen].priority >= s.policies[j].priority
    ensures s.policies[j].priority == s.policies[result.chosen].priority ==> Waited(s, now, result.chosen) >= Waited(s, now, j)
    ensures Waited(s, now, result.chosen) < Waited(s, now, j) + 8 ==> s.policies[result.chosen].priority >= s.policies[j].priority
  {
    hide CanRun;
  }

  class Scheduler {
    var plan: Plan
    var memories: seq<seq<bv8>>
    var exited: seq<bool>

    ghost predicate Valid()
      reads this
    {
      PoliciesOk(plan) && |memories| == |exited| == COMPONENTS && plan.frameCycles <= UINT64_MAX
    }

    constructor (frameTicks: nat, frameCycles: nat, memories: seq<seq<bv8>>)
      requires |memories| == COMPONENTS && 0 < frameTicks && 0 < frameCycles <= UINT64_MAX
      ensures Valid() && Covered(plan) && this.memories == memories && exited == [false, false, false, false]
      ensures var share := Policy(false, 0, frameCycles / COMPONENTS);
              plan == Plan(frameTicks, frameCycles, [share, share, share, share], [0, 0, 0, 0], [0, 0, 0, 0], 0, 0, 0)
    {
      var share := Policy(false, 0, frameCycles / COMPONENTS);
      plan := Plan(frameTicks, frameCycles, [share, share, share, share], [0, 0, 0, 0], [0, 0, 0, 0], 0, 0, 0);
      this.memories, exited := memories, [false, false, false, false];
      new;
      NothingPromised(plan.policies, COMPONENTS);
      FreshReserved(plan, COMPONENTS);
    }

    /** Accepts a policy exactly when all interactive budgets together still fit the frame. */
    method Configure(index: nat, p: Policy) returns (ok: bool)
      requires Valid()
      modifies this`plan
      ensures Valid()
      ensures ok <==>
              && index < COMPONENTS && p.priority <= PRIORITY_MAX && 0 < p.budget <= old(plan).frameCycles
              && Promised(old(plan).policies[index := p], COMPONENTS) <= old(plan).frameCycles
      ensures plan == if ok then Reconfigured(old(plan), index, p) else old(plan)
    {
      if index >= COMPONENTS || p.priority > PRIORITY_MAX || p.budget == 0 || p.budget > plan.frameCycles {
        return false;
      }
      var policies := plan.policies[index := p];
      var reserved, i := 0, 0;
      while i < COMPONENTS
        invariant plan == old(plan) && 0 <= i <= COMPONENTS && reserved == Promised(policies, i) <= plan.frameCycles
      {
        var candidate := if i == index then p else plan.policies[i];
        if candidate.interactive {
          PromisedGrows(policies, i + 1, COMPONENTS);
          if candidate.budget > plan.frameCycles - reserved {
            return false;
          }
          reserved := reserved + candidate.budget;
        }
        i := i + 1;
      }
      plan := plan.(policies := policies);
      return true;
    }

    /**
     * One step: the best eligible component runs and is charged. If its handler does not commit,
     * its memory is what it was, followed by zeros where it grew, and it does not run again.
     */
    method Step(now: nat, input: Input) returns (result: StepResult)
      requires Valid() && |input.runnable| == COMPONENTS
      modifies this
      ensures Valid() && Stepped(old(plan), old(exited), input, now, result, plan, exited)
      ensures Rightly(old(plan), old(exited), input, now, result, plan)
      ensures !Handled(result) ==> memories == old(memories)
      ensures result.Ran? ==> memories == old(memories)[result.chosen := input.handler.memory]
      ensures result.Failed? ==>
                && memories == old(memories)[result.chosen := memories[result.chosen]]
                && (|input.handler.memory| >= |old(memories)[result.chosen]| ==>
                      && |memories[result.chosen]| == |input.handler.memory|
                      && old(memories)[result.chosen] <= memories[result.chosen]
                      && forall k :: |old(memories)[result.chosen]| <= k < |input.handler.memory| ==> memories[result.chosen][k] == 0)
    {
      hide Eligible, Score, Reserved, Promised, Rightly;
      var ready := Ready(input.runnable, exited);
      if now < plan.frameStart {
        SteppedMeans(old(plan), old(exited), input, now, Refused, plan, exited);
        return Refused;
      }
      plan := Refreshed(plan, now);
      var selected := Select(plan, ready, now);
      if selected.None? {
        SteppedMeans(old(plan), old(exited), input, now, Idle, plan, exited);
        return Idle;
      }
      if !input.begins {
        SteppedMeans(old(plan), old(exited), input, now, Refused, plan, exited);
        return Refused;
      }
      var i, handler := selected.value, input.handler;
      var saved := memories[i];
      plan := Charged(plan, i, now, handler.elapsed);
      if handler.commits {
        memories := memories[i := handler.memory];
        SteppedMeans(old(plan), old(exited), input, now, Ran(i), plan, exited);
        return Ran(i);
      }
      var zeros := if |handler.memory| >= |saved| then |handler.memory| - |saved| else 0;
      memories := memories[i := if |handler.memory| >= |saved| then saved + seq(zeros, _ => 0) else handler.memory];
      exited := exited[i := true];
      SteppedMeans(old(plan), old(exited), input, now, Failed(i), plan, exited);
      return Failed(i);
    }
  }

  lemma {:induction false} PromisedGrows(policies: seq<Policy>, n: nat, m: nat)
    requires n <= m <= |policies|
    ensures Promised(policies, n) <= Promised(policies, m)
    decreases m
  {
    if n < m {
      PromisedGrows(policies, n, m - 1);
    }
  }

  lemma {:induction false} NothingPromised(policies: seq<Policy>, n: nat)
    requires n <= |policies| && forall i :: 0 <= i < |policies| ==> !policies[i].interactive
    ensures Promised(policies, n) == 0
    decreases n
  {
    if n > 0 {
      NothingPromised(policies, n - 1);
    }
  }

  // ---- Runs ------------------------------------------------------------------------------------

  /** Steps at consecutive ticks: the plan and the exited components before each and after all. */
  datatype Course = Course(plans: seq<Plan>, exits: seq<seq<bool>>, results: seq<StepResult>)

  ghost predicate CourseOk(c: Course, inputs: seq<Input>, start: nat) {
    && |c.plans| == |c.exits| == |inputs| + 1 && |c.results| == |inputs|
    && (forall k :: 0 <= k <= |inputs| ==> PoliciesOk(c.plans[k]) && |c.exits[k]| == COMPONENTS)
    && (forall k :: 0 <= k < |inputs| ==> |inputs[k].runnable| == COMPONENTS)
    && (forall k :: 0 <= k < |inputs| ==>
          Stepped(c.plans[k], c.exits[k], inputs[k], start + k, c.results[k], c.plans[k + 1], c.exits[k + 1]))
  }

  /** Runs the scheduler at consecutive ticks, with the policies left alone. */
  method Drive(s: Scheduler, inputs: seq<Input>, start: nat) returns (results: seq<StepResult>, ghost c: Course)
    requires s.Valid() && forall k :: 0 <= k < |inputs| ==> |inputs[k].runnable| == COMPONENTS
    modifies s
    ensures s.Valid() && CourseOk(c, inputs, start) && c.results == results
    ensures c.plans[0] == old(s.plan) && c.exits[0] == old(s.exited)
    ensures c.plans[|inputs|] == s.plan && c.exits[|inputs|] == s.exited
  {
    hide Stepped, PoliciesOk, Shaped;
    results := [];
    PoliciesShaped(s.plan);
    ghost var plans, exits := [s.plan], [s.exited];
    while |results| < |inputs|
      invariant |results| <= |inputs| && |plans| == |exits| == |results| + 1 && s.Valid()
      invariant plans[0] == old(s.plan) && exits[0] == old(s.exited) && plans[|results|] == s.plan && exits[|results|] == s.exited
      invariant forall k :: 0 <= k < |plans| ==> PoliciesOk(plans[k]) && Shaped(plans[k]) && |exits[k]| == COMPONENTS
      invariant forall k :: 0 <= k < |results| ==> Stepped(plans[k], exits[k], inputs[k], start + k, results[k], plans[k + 1], exits[k + 1])
      decreases |inputs| - |results|
    {
      var result := s.Step(start + |results|, inputs[|results|]);
      PoliciesShaped(s.plan);
      results, plans, exits := results + [result], plans + [s.plan], exits + [s.exited];
    }
    c := Course(plans, exits, results);
  }

  lemma PoliciesShaped(s: Plan)
    requires PoliciesOk(s)
    ensures Shaped(s)
  {
  }

  /** The handler at this tick stays within what its component has left. */
  ghost predicate Modest(c: Course, inputs: seq<Input>, start: nat, k: nat)
    requires CourseOk(c, inputs, start) && k < |inputs|
  {
    Handled(c.results[k]) ==>
      var s, i := Refreshed(c.plans[k], start + k), c.results[k].chosen;
      i < COMPONENTS && Shaped(s) && inputs[k].handler.elapsed <= s.policies[i].budget - s.used[i]
  }

  /** With every handler within its budget, the frame is covered at every tick of every run. */
  lemma {:induction false} ReservationHolds(c: Course, inputs: seq<Input>, start: nat, k: nat)
    requires CourseOk(c, inputs, start) && k <= |inputs| && Covered(c.plans[0]) && c.plans[0].frameStart <= start
    requires c.plans[0].frameCycles <= UINT64_MAX && forall n :: 0 <= n < k ==> Modest(c, inputs, start, n)
    ensures Covered(c.plans[k]) && c.plans[k].frameStart <= start + k && c.plans[k].frameCycles <= UINT64_MAX
    decreases k
  {
    hide Eligible, Score, Reserved, Promised;
    if k > 0 {
      ReservationHolds(c, inputs, start, k - 1);
      assert Modest(c, inputs, start, k - 1);
      StepCovers(c, inputs, start, k - 1);
    }
  }

  lemma StepCovers(c: Course, inputs: seq<Input>, start: nat, k: nat)
    requires CourseOk(c, inputs, start) && k < |inputs| && Covered(c.plans[k]) && c.plans[k].frameStart <= start + k
    requires c.plans[k].frameCycles <= UINT64_MAX && Modest(c, inputs, start, k)
    ensures Covered(c.plans[k + 1]) && c.plans[k + 1].frameStart <= start + k + 1 && c.plans[k + 1].frameCycles <= UINT64_MAX
  {
    hide Score, Reserved, Promised;
    var s, now, input, result := Refreshed(c.plans[k], start + k), start + k, inputs[k], c.results[k];
    assert Stepped(c.plans[k], c.exits[k], input, now, result, c.plans[k + 1], c.exits[k + 1]);
    NewFrameCovered(c.plans[k], now);
    if Handled(result) {
      WithinBudgetCovered(s, Ready(input.runnable, c.exits[k]), result.chosen, now, input.handler.elapsed);
    }
  }

  /**
   * Reservation: with every handler so far within its budget, a runnable interactive component
   * with budget left is eligible, and whoever runs instead is interactive too.
   */
  lemma InteractiveServed(c: Course, inputs: seq<Input>, start: nat, k: nat, i: nat)
    requires CourseOk(c, inputs, start) && k < |inputs| && Covered(c.plans[0]) && c.plans[0].frameStart <= start
    requires c.plans[0].frameCycles <= UINT64_MAX && forall n :: 0 <= n < k ==> Modest(c, inputs, start, n)
    requires i < COMPONENTS && inputs[k].runnable[i] && !c.exits[k][i] && c.plans[k].policies[i].interactive
    requires Refreshed(c.plans[k], start + k).used[i] < c.plans[k].policies[i].budget
    ensures Eligible(Refreshed(c.plans[k], start + k), Ready(inputs[k].runnable, c.exits[k]), i) && c.results[k] != Idle
    ensures Handled(c.results[k]) <==> inputs[k].begins
    ensures Handled(c.results[k]) ==> c.results[k].chosen < COMPONENTS && c.plans[k].policies[c.results[k].chosen].interactive
  {
    hide Score, Reserved, Promised, Eligible;
    ReservationHolds(c, inputs, start, k);
    var s, ready := Refreshed(c.plans[k], start + k), Ready(inputs[k].runnable, c.exits[k]);
    NewFrameCovered(c.plans[k], start + k);
    InteractiveEligible(s, ready, i);
    assert Stepped(c.plans[k], c.exits[k], inputs[k], start + k, c.results[k], c.plans[k + 1], c.exits[k + 1]);
    if Handled(c.results[k]) {
      InteractiveFirst(s, ready, start + k, i, c.results[k].chosen);
    }
  }

  ghost function TickAt(c: Course, inputs: seq<Input>, start: nat, k: nat): Tick
    requires CourseOk(c, inputs, start) && k < |inputs| && Handled(c.results[k])
  {
    Tick(c.plans[k], Ready(inputs[k].runnable, c.exits[k]), c.results[k].chosen, inputs[k].handler.elapsed)
  }

  /** In every run: whoever stays eligible while no interactive component is gets its turn within the bound. */
  lemma WaitingEnds(c: Course, inputs: seq<Input>, start: nat, i: nat)
    requires CourseOk(c, inputs, start) && |inputs| == WAIT_MAX && i < COMPONENTS && c.plans[0].lastRun[i] <= start
    requires forall k :: 0 <= k < |inputs| ==> Handled(c.results[k])
    requires forall k, j :: 0 <= k < |inputs| && 0 <= j < COMPONENTS && c.plans[k].policies[j].interactive ==>
               !Eligible(Refreshed(c.plans[k], start + k), Ready(inputs[k].runnable, c.exits[k]), j)
    requires forall k :: 0 <= k < |inputs| ==>
               Eligible(Refreshed(c.plans[k], start + k), Ready(inputs[k].runnable, c.exits[k]), i)
    ensures exists k :: 0 <= k < |inputs| && Handled(c.results[k]) && c.results[k].chosen == i
  {
    hide Eligible, Score;
    var ticks := seq(|inputs|, k requires 0 <= k < |inputs| => TickAt(c, inputs, start, k));
    forall k | 0 <= k < |ticks|
      ensures Ticked(ticks[k], start + k) && Quiet(ticks[k], start + k)
      ensures c.plans[k + 1].lastRun == c.plans[k].lastRun[ticks[k].chosen := start + k]
    {
      assert Stepped(c.plans[k], c.exits[k], inputs[k], start + k, c.results[k], c.plans[k + 1], c.exits[k + 1]);
      EligibleExists(Refreshed(c.plans[k], start + k), ticks[k].ready, i);
    }
    BoundedWaiting(ticks, start, i);
    var k :| 0 <= k < |ticks| && ticks[k].chosen == i;
    assert c.results[k].chosen == i;
  }

  lemma EligibleExists(s: Plan, ready: seq<bool>, i: nat)
    requires Shaped(s) && |ready| == COMPONENTS && i < COMPONENTS && Eligible(s, ready, i)
    ensures exists j :: 0 <= j < COMPONENTS && Eligible(s, ready, j)
  {
  }

  // ---- A promise too late -----------------------------------------------------------------------

  const BUSY := Policy(false, 0, 60)
  const LATE := Policy(true, 0, 50)

  lemma {:induction false} NothingReserved(s: Plan, n: nat)
    requires Shaped(s) && n <= COMPONENTS && forall i :: 0 <= i < COMPONENTS ==> !s.policies[i].interactive
    ensures Reserved(s, n) == 0
    decreases n
  {
    if n > 0 {
      NothingReserved(s, n - 1);
    }
  }

  /**
   * A policy accepted in the middle of a frame may promise what is already spent: of a hundred
   * cycles one component uses its sixty, then another is promised fifty. It gets forty, and for
   * the rest of the frame it cannot run however ready it is.
   */
  method LatePromiseBreaks() returns (s: Scheduler)
    ensures s.Valid() && s.plan.policies[0] == LATE && s.plan.used[0] == 40 && !s.exited[0]
    ensures forall now: nat, ready: seq<bool> :: 1 < now < s.plan.frameTicks && |ready| == COMPONENTS ==>
              !Eligible(Refreshed(s.plan, now), ready, 0)
    ensures s.plan.frameStart == 0 && s.plan.frameTicks == 10
  {
    hide Reserved, Promised, Score, Covered;
    s := OverPromised();
    ghost var before, exited := s.plan, s.exited;
    var input := Input([true, false, false, false], true, Handler(40, true, []));
    assert Eligible(before, Ready(input.runnable, exited), 0);
    var result := s.Step(1, input);
    assert s.plan == Charged(before, 0, 1, 40);
  }

  /** The frame no longer covers what it promises. */
  method OverPromised() returns (s: Scheduler)
    ensures fresh(s) && s.Valid() && !Covered(s.plan) && s.plan.policies[0] == LATE && s.exited == [false, false, false, false]
    ensures s.plan.consumed == 60 && s.plan.used[0] == 0 && s.plan.frameCycles == 100
    ensures s.plan.frameStart == 0 && s.plan.frameTicks == 10
  {
    hide Reserved, Promised, Score;
    s := new Scheduler(10, 100, [[], [], [], []]);
    NothingPromised(s.plan.policies[1 := BUSY], COMPONENTS);
    var ok := s.Configure(1, BUSY);
    NothingReserved(s.plan, COMPONENTS);
    ghost var before, exited := s.plan, s.exited;
    var input := Input([false, true, false, false], true, Handler(60, true, []));
    assert Eligible(before, Ready(input.runnable, exited), 1);
    var result := s.Step(0, input);
    assert s.plan == Charged(before, 1, 0, 60);
    OnePromise(s.plan.policies[0 := LATE]);
    ok := s.Configure(0, LATE);
    ReservedHas(s.plan, COMPONENTS, 0);
  }

  lemma OnePromise(policies: seq<Policy>)
    requires |policies| == COMPONENTS && policies[0] == LATE && forall i :: 0 < i < COMPONENTS ==> !policies[i].interactive
    ensures Promised(policies, COMPONENTS) == 50
  {
    assert Promised(policies, 0) == 0 && Promised(policies, 1) == 50;
    assert Promised(policies, 2) == 50 && Promised(policies, 3) == 50;
  }
}
