/**
 * The animated numeric label: a displayed value, the value it superseded, an
 * exiting flag, and two cancellable timers. Timers are pending flags and
 * their firing is an event; wall-clock time is not modelled, only the order
 * the delays impose (the exit timer is always due before the reset timer).
 */
module Animation {
  import opened Wrappers

  /** Delays of the two timers, in milliseconds. */
  const ExitDelayMs: nat := 2000
  const ResetDelayMs: nat := 3000

  /** The component's state: its three state fields, its two pending timers, and whether it is mounted. */
  datatype Anim = Anim(
    display: real,
    prior: Option<real>,
    exiting: bool,
    exitPending: bool,
    resetPending: bool,
    mounted: bool)

  /** What can happen to a mounted label: a new value prop, a timer firing, or unmounting. */
  datatype Event = NewValue(v: real) | ExitTimer | ResetTimer | Unmount

  /** The visual phase of the prior value. */
  datatype Phase = Idle | Showing | Collapsing

  function PhaseOf(s: Anim): Phase {
    if s.prior.None? then Idle else if s.exiting then Collapsing else Showing
  }

  /**
   * The state invariant: exiting only while a prior value is shown; the exit
   * timer only inside a cycle whose reset timer is pending; while mounted, the
   * reset timer is pending exactly when a prior value is shown, and within
   * that window the exit timer is pending exactly until `exiting` is set;
   * once unmounted, nothing is pending.
   */
  ghost predicate Valid(s: Anim) {
    && (s.exiting ==> s.prior.Some?)
    && (s.exitPending ==> s.resetPending)
    && (s.mounted ==> (s.resetPending <==> s.prior.Some?))
    && (s.mounted && s.prior.Some? ==> (s.exitPending <==> !s.exiting))
    && (!s.mounted ==> !s.exitPending && !s.resetPending)
  }

  /** The state on mount: the initial value shown, no prior value, not exiting, no timers. */
  function Mount(v: real): (s: Anim)
    ensures Valid(s) && PhaseOf(s) == Idle
    ensures s.display == v && s.prior == None && !s.exiting
    ensures !s.exitPending && !s.resetPending && s.mounted
  {
    Anim(v, None, false, false, false, true)
  }

  /**
   * Which events can occur: value props arrive and unmounting happens only
   * while mounted; a cancelled timer never fires; and since both timers of a
   * cycle are started together with ExitDelayMs < ResetDelayMs, the reset
   * timer cannot fire while the exit timer is still pending.
   */
  predicate Enabled(s: Anim, e: Event) {
    match e
    case NewValue(_) => s.mounted
    case ExitTimer => s.exitPending
    case ResetTimer => s.resetPending && !s.exitPending
    case Unmount => s.mounted
  }

  /** The effect on a new value prop. A value equal to the displayed one changes nothing. */
  function OnValue(s: Anim, v: real): (r: Anim)
    ensures r.display == v && r.mounted == s.mounted
    ensures v == s.display ==> r == s
    ensures v != s.display ==> r.prior == Some(s.display) && !r.exiting && r.exitPending && r.resetPending
  {
    if v == s.display then s
    else Anim(v, Some(s.display), false, true, true, s.mounted)
  }

  /** The exit timer's callback. */
  function OnExit(s: Anim): (r: Anim)
    ensures r.exiting && !r.exitPending
    ensures r.display == s.display && r.prior == s.prior && r.resetPending == s.resetPending && r.mounted == s.mounted
  {
    s.(exiting := true, exitPending := false)
  }

  /** The reset timer's callback. */
  function OnReset(s: Anim): (r: Anim)
    ensures r.prior.None? && !r.exiting && !r.resetPending
    ensures r.display == s.display && r.exitPending == s.exitPending && r.mounted == s.mounted
  {
    s.(prior := None, exiting := false, resetPending := false)
  }

  /** The effect's cleanup on unmount: both timers are cleared. */
  function OnUnmount(s: Anim): (r: Anim)
    ensures !r.mounted && !r.exitPending && !r.resetPending
    ensures r.display == s.display && r.prior == s.prior && r.exiting == s.exiting
  {
    s.(exitPending := false, resetPending := false, mounted := false)
  }

  /** One event that can occur. Only a new value changes the displayed value, and only unmounting unmounts. */
  function Step(s: Anim, e: Event): (r: Anim)
    requires Enabled(s, e)
    ensures !e.NewValue? ==> r.display == s.display
    ensures e.Unmount? ==> !r.mounted
    ensures !e.Unmount? ==> r.mounted == s.mounted
  {
    match e
    case NewValue(v) => OnValue(s, v)
    case ExitTimer => OnExit(s)
    case ResetTimer => OnReset(s)
    case Unmount => OnUnmount(s)
  }

  /** Every event that can occur keeps the invariant. */
  lemma StepValid(s: Anim, e: Event)
    requires Valid(s) && Enabled(s, e)
    ensures Valid(Step(s, e))
  {
  }

  /** A trace of events every one of which can occur when it does. */
  predicate Possible(s: Anim, es: seq<Event>)
    decreases |es|
  {
    es == [] || (Enabled(s, es[0]) && Possible(Step(s, es[0]), es[1..]))
  }

  function Run(s: Anim, es: seq<Event>): Anim
    requires Possible(s, es)
    decreases |es|
  {
    if es == [] then s else Run(Step(s, es[0]), es[1..])
  }

  /** The invariant holds after any possible trace. */
  lemma {:induction false} RunValid(s: Anim, es: seq<Event>)
    requires Valid(s) && Possible(s, es)
    ensures Valid(Run(s, es))
    decreases |es|
  {
    if es != [] {
      StepValid(s, es[0]);
      RunValid(Step(s, es[0]), es[1..]);
    }
  }

  /** The same value again: no state change and no timer scheduled or reset. */
  lemma SameValueIsNoOp(s: Anim)
    requires s.mounted
    ensures Step(s, NewValue(s.display)) == s
  {
  }

  /**
   * A distinct value starts a new cycle from what is on screen: the interrupted
   * displayed value becomes the prior value (not the older prior), the old
   * cycle's timers are replaced by fresh ones, and the label is not exiting.
   */
  lemma NewValueRestartsCycle(s: Anim, v: real)
    requires Valid(s) && s.mounted && v != s.display
    ensures Step(s, NewValue(v)).display == v
    ensures Step(s, NewValue(v)).prior == Some(s.display)
    ensures !Step(s, NewValue(v)).exiting
    ensures Step(s, NewValue(v)).exitPending && Step(s, NewValue(v)).resetPending
    ensures PhaseOf(Step(s, NewValue(v))) == Showing
  {
  }

  /** The exit timer only starts the collapse; the reset timer ends the cycle. */
  lemma TimerEffects(s: Anim)
    requires Valid(s)
    ensures s.exitPending ==> OnExit(s) == s.(exiting := true, exitPending := false)
                              && PhaseOf(OnExit(s)) == Collapsing && OnExit(s).resetPending
    ensures s.resetPending && !s.exitPending ==>
              PhaseOf(OnReset(s)) == Idle && !OnReset(s).exiting && OnReset(s).display == s.display
              && !OnReset(s).resetPending
  {
  }

  /**
   * The exit timer is due first: its delay is the shorter, and it is only ever
   * pending alongside the reset timer. That the reset timer then cannot fire is
   * the scheduling order assumed by `Enabled`, not derived from the delays.
   */
  lemma ExitDueBeforeReset(s: Anim)
    requires Valid(s)
    ensures ExitDelayMs < ResetDelayMs
    ensures s.exitPending ==> s.resetPending && !Enabled(s, ResetTimer)
  {
  }

  /** After unmounting no event at all can occur, so no callback can change the state. */
  lemma NothingAfterUnmount(s: Anim, es: seq<Event>)
    requires Valid(s) && !s.mounted && Possible(s, es)
    ensures es == [] && Run(s, es) == s
  {
  }

  /** Timer events only: neither the displayed value nor the mounted flag changes. */
  predicate TimersOnly(es: seq<Event>) {
    forall i :: 0 <= i < |es| ==> es[i] == ExitTimer || es[i] == ResetTimer
  }

  /**
   * With no newer value, the timers settle the label: the displayed value is
   * kept, and once the reset timer has fired the label is idle.
   */
  lemma {:induction false} QuietTraceSettles(s: Anim, es: seq<Event>)
    requires Valid(s) && Possible(s, es) && TimersOnly(es)
    ensures Run(s, es).display == s.display && Run(s, es).mounted == s.mounted
    ensures ResetTimer in es ==>
              PhaseOf(Run(s, es)) == Idle && !Run(s, es).exiting && !Run(s, es).exitPending && !Run(s, es).resetPending
    decreases |es|
  {
    if es != [] {
      StepValid(s, es[0]);
      assert TimersOnly(es[1..]) by {
        forall i | 0 <= i < |es[1..]| ensures es[1..][i] == ExitTimer || es[1..][i] == ResetTimer {
          assert es[1..][i] == es[i + 1];
        }
      }
      QuietTraceSettles(Step(s, es[0]), es[1..]);
      if ResetTimer in es && ResetTimer !in es[1..] {
        assert es[0] == ResetTimer;
        QuietTraceKeepsIdle(Step(s, es[0]), es[1..]);
      }
    }
  }

  /** Once idle, further timer events cannot occur. */
  lemma QuietTraceKeepsIdle(s: Anim, es: seq<Event>)
    requires Valid(s) && s.prior.None? && !s.exitPending && !s.resetPending && Possible(s, es) && TimersOnly(es)
    ensures es == []
  {
  }

  /** A full cycle with no interruption: after both timers the new value alone is shown. */
  lemma FullCycle(s: Anim, v: real)
    requires Valid(s) && s.mounted && v != s.display
    ensures Possible(s, [NewValue(v), ExitTimer, ResetTimer])
    ensures Run(s, [NewValue(v), ExitTimer, ResetTimer]) == Anim(v, None, false, false, false, true)
  {
    var s1 := Step(s, NewValue(v));
    var s2 := Step(s1, ExitTimer);
    var s3 := Step(s2, ResetTimer);
    assert [NewValue(v), ExitTimer, ResetTimer][1..] == [ExitTimer, ResetTimer];
    assert [ExitTimer, ResetTimer][1..] == [ResetTimer];
    assert [ResetTimer][1..] == [];
  }

  /**
   * Values spaced further apart than a full cycle: each one is shown alone
   * once its cycle completes, and at the end the last one is displayed.
   */
  function SpacedTrace(vs: seq<real>): seq<Event> {
    if vs == [] then [] else [NewValue(vs[0]), ExitTimer, ResetTimer] + SpacedTrace(vs[1..])
  }

  /** Consecutive values differ. */
  predicate Distinct(first: real, vs: seq<real>) {
    (vs != [] ==> vs[0] != first) && forall i :: 1 <= i < |vs| ==> vs[i] != vs[i - 1]
  }

  lemma {:induction false} SpacedValuesSettle(s: Anim, vs: seq<real>)
    requires Valid(s) && s.mounted && PhaseOf(s) == Idle && Distinct(s.display, vs)
    ensures Possible(s, SpacedTrace(vs))
    ensures vs == [] ==> Run(s, SpacedTrace(vs)) == s
    ensures vs != [] ==> Run(s, SpacedTrace(vs)) == Anim(vs[|vs| - 1], None, false, false, false, true)
    decreases |vs|
  {
    if vs != [] {
      FullCycle(s, vs[0]);
      var cycle := [NewValue(vs[0]), ExitTimer, ResetTimer];
      var s3 := Run(s, cycle);
      assert Distinct(s3.display, vs[1..]) by {
        if |vs| > 1 { assert vs[1..][0] == vs[1]; }
        forall i | 1 <= i < |vs[1..]| ensures vs[1..][i] != vs[1..][i - 1] {
          assert vs[1..][i] == vs[i + 1];
        }
      }
      SpacedValuesSettle(s3, vs[1..]);
      RunAppend(s, cycle, SpacedTrace(vs[1..]));
      if vs[1..] == [] {
        assert Run(s, SpacedTrace(vs)) == s3;
      } else {
        assert vs[1..][|vs[1..]| - 1] == vs[|vs| - 1];
      }
    }
  }

  /** Running two traces one after the other. */
  lemma {:induction false} RunAppend(s: Anim, a: seq<Event>, b: seq<Event>)
    requires Possible(s, a) && Possible(Run(s, a), b)
    ensures Possible(s, a + b) && Run(s, a + b) == Run(Run(s, a), b)
    decreases |a|
  {
    if a != [] {
      assert (a + b)[0] == a[0] && (a + b)[1..] == a[1..] + b;
      RunAppend(Step(s, a[0]), a[1..], b);
    } else {
      assert a + b == b;
    }
  }

  /** What the label renders: the primary value, and the prior element (collapsed or not) only while a prior value exists. */
  datatype View = View(primary: real, priorElement: Option<(real, bool)>)

  function Render(s: Anim): (r: View)
    ensures r.primary == s.display
    ensures r.priorElement.Some? <==> s.prior.Some?
    ensures r.priorElement.Some? ==> r.priorElement.value == (s.prior.value, s.exiting)
  {
    View(s.display, if s.prior.Some? then Some((s.prior.value, s.exiting)) else None)
  }

  /** The scenario 60.0 then 58.2: 58.2 is primary with 60.0 beside it, and after both timers only 58.2 remains. */
  lemma Scenario()
    ensures Render(Step(Mount(60.0), NewValue(58.2))) == View(58.2, Some((60.0, false)))
    ensures Render(Run(Mount(60.0), [NewValue(58.2), ExitTimer, ResetTimer])) == View(58.2, None)
    ensures Step(Run(Mount(60.0), [NewValue(58.2), ExitTimer, ResetTimer]), NewValue(58.2))
              == Run(Mount(60.0), [NewValue(58.2), ExitTimer, ResetTimer])
  {
    FullCycle(Mount(60.0), 58.2);
  }

  /** The component instance: its state fields, `timeoutRef` and the local exit timer. */
  class AnimatedNumber {
    var displayValue: real
    var previousValue: Option<real>
    var isExiting: bool
    var exitTimer: bool
    var resetTimer: bool
    var mounted: bool

    function State(): Anim
      reads this
    {
      Anim(displayValue, previousValue, isExiting, exitTimer, resetTimer, mounted)
    }

    ghost predicate Consistent()
      reads this
    {
      Valid(State())
    }

    constructor (value: real)
      ensures State() == Mount(value) && Consistent()
    {
      displayValue := value;
      previousValue := None;
      isExiting := false;
      exitTimer := false;
      resetTimer := false;
      mounted := true;
    }

    /** The effect on a changed `value` prop, including the cleanup of the previous run. */
    method OnValue(value: real)
      requires Consistent() && mounted
      modifies this
      ensures State() == Step(old(State()), NewValue(value)) && Consistent()
    {
      if value == displayValue {
        return;
      }
      previousValue := Some(displayValue);
      displayValue := value;
      isExiting := false;
      exitTimer := false;
      resetTimer := false;
      exitTimer := true;
      resetTimer := true;
    }

    method FireExit()
      requires Consistent() && exitTimer
      modifies this
      ensures State() == Step(old(State()), ExitTimer) && Consistent()
    {
      exitTimer := false;
      isExiting := true;
    }

    method FireReset()
      requires Consistent() && resetTimer && !exitTimer
      modifies this
      ensures State() == Step(old(State()), ResetTimer) && Consistent()
    {
      resetTimer := false;
      previousValue := None;
      isExiting := false;
    }

    method Unmount()
      requires Consistent() && mounted
      modifies this
      ensures State() == Step(old(State()), Event.Unmount) && Consistent()
    {
      exitTimer := false;
      resetTimer := false;
      mounted := false;
    }
  }
}
