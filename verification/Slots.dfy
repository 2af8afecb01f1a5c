/** Connection slots: a shared counter raised by a load and compare-exchange loop in any
    number of threads, and lowered when a guard is dropped. Each atomic instruction is one
    step. */
module Slots {

  type ThreadId = nat
  type GuardId = nat

  /** `Loaded(seen, at)`: the thread is between its load, which returned `seen`, and its
      exchange; `at` is how often the counter had changed by then. */
  datatype Progress = Idle | Loaded(seen: int, at: nat)

  datatype Slots = Slots(
    max: nat,
    active: int,
    changes: nat,
    threads: map<ThreadId, Progress>,
    failures: map<ThreadId, nat>,
    guards: set<GuardId>)
  {
    function Of(t: ThreadId): Progress { if t in threads then threads[t] else Idle }

    function Failures(t: ThreadId): nat { if t in failures then failures[t] else 0 }
  }

  function Empty(max: nat): Slots { Slots(max, 0, 0, map[], map[], {}) }

  datatype Step = Load(t: ThreadId) | Exchange(t: ThreadId, g: GuardId) | Drop(g: GuardId)

  predicate Enabled(s: Slots, e: Step) {
    match e
    case Load(t) => s.Of(t).Idle?
    case Exchange(t, g) => s.Of(t).Loaded? && g !in s.guards
    case Drop(g) => g in s.guards
  }

  predicate ExchangeSucceeds(s: Slots, t: ThreadId) {
    s.Of(t).Loaded? && s.Of(t).seen == s.active
  }

  function Next(s: Slots, e: Step): Slots
    requires Enabled(s, e)
  {
    match e
    case Load(t) =>
      if s.active >= s.max then s  // returns None
      else s.(threads := s.threads[t := Loaded(s.active, s.changes)])
    case Exchange(t, g) =>
      if ExchangeSucceeds(s, t) then
        s.(active := s.active + 1, changes := s.changes + 1, threads := s.threads[t := Idle], guards := s.guards + {g})
      else
        s.(threads := s.threads[t := Idle], failures := s.failures[t := s.Failures(t) + 1])
    case Drop(g) =>
      s.(active := s.active - 1, changes := s.changes + 1, guards := s.guards - {g})
  }

  function Exec(s: Slots, steps: seq<Step>): (r: Slots)
    requires IsRun(s, steps)
    decreases |steps|, 1
  {
    if steps == [] then s else Next(Exec(s, steps[..|steps| - 1]), steps[|steps| - 1])
  }

  predicate IsRun(s: Slots, steps: seq<Step>)
    decreases |steps|, 0
  {
    steps == [] || (IsRun(s, steps[..|steps| - 1]) && Enabled(Exec(s, steps[..|steps| - 1]), steps[|steps| - 1]))
  }

  ghost predicate ThreadOk(s: Slots, t: ThreadId) {
    match s.Of(t)
    case Idle => s.Failures(t) <= s.changes
    case Loaded(seen, at) =>
      && seen < s.max
      && s.Failures(t) <= at <= s.changes
      && (at == s.changes ==> seen == s.active)
  }

  /** The counter is the number of live guards and respects the limit. */
  ghost predicate Inv(s: Slots) {
    && s.active == |s.guards|
    && s.active <= s.max
    && forall t :: ThreadOk(s, t)
  }

  lemma StepKeepsInv(s: Slots, e: Step)
    requires Inv(s) && Enabled(s, e)
    ensures Inv(Next(s, e))
    ensures Next(s, e).max == s.max
  {
    forall t ensures ThreadOk(Next(s, e), t) {
      assert ThreadOk(s, t);
      match e
      case Load(u) => assert ThreadOk(s, u);
      case Exchange(u, _) => assert ThreadOk(s, u);
      case Drop(_) =>
    }
    if e.Exchange? { assert ThreadOk(s, e.t); }
  }

  /** Whatever the interleaving: the counter is the number of live guards, so it neither
      exceeds the limit nor underflows, and a thread's failed exchanges never outnumber the
      changes that guards coming and going made to the counter. */
  lemma {:induction false} SlotsAreNeverOversubscribed(max: nat, steps: seq<Step>)
    requires IsRun(Empty(max), steps)
    ensures var s := Exec(Empty(max), steps);
            && Inv(s) && s.max == max
            && 0 <= s.active == |s.guards| <= max
            && forall t :: s.Failures(t) <= s.changes
  {
    if steps != [] {
      SlotsAreNeverOversubscribed(max, steps[..|steps| - 1]);
      StepKeepsInv(Exec(Empty(max), steps[..|steps| - 1]), steps[|steps| - 1]);
    }
    var s := Exec(Empty(max), steps);
    forall t ensures s.Failures(t) <= s.changes { assert ThreadOk(s, t); }
  }

  predicate ChangesCounter(s: Slots, e: Step) {
    e.Drop? || (e.Exchange? && ExchangeSucceeds(s, e.t))
  }

  /** An exchange that fails was overtaken: since this thread's load, another thread took or
      freed a slot. */
  lemma FailedExchangeWasOvertaken(s: Slots, t: ThreadId, between: seq<Step>)
    requires s.Of(t).Idle? && s.active < s.max
    requires var loaded := Next(s, Load(t));
             && IsRun(loaded, between)
             && forall e :: e in between && (e.Load? || e.Exchange?) ==> e.t != t
    requires !ExchangeSucceeds(Exec(Next(s, Load(t)), between), t)
    ensures exists i :: 0 <= i < |between| && OvertakenAt(Next(s, Load(t)), between, i)
  {
    UndisturbedLoad(Next(s, Load(t)), t, between);
  }

  ghost predicate OvertakenAt(s: Slots, steps: seq<Step>, i: nat) {
    i < |steps| && IsRun(s, steps[..i]) && ChangesCounter(Exec(s, steps[..i]), steps[i])
  }

  lemma {:induction false} UndisturbedLoad(s: Slots, t: ThreadId, steps: seq<Step>)
    requires s.Of(t).Loaded? && IsRun(s, steps)
    requires forall e :: e in steps && (e.Load? || e.Exchange?) ==> e.t != t
    ensures Exec(s, steps).Of(t) == s.Of(t)
    ensures (forall i :: 0 <= i < |steps| ==> !OvertakenAt(s, steps, i)) ==> Exec(s, steps).active == s.active
  {
    if steps != [] {
      var n := |steps| - 1;
      UndisturbedLoad(s, t, steps[..n]);
      assert forall i :: 0 <= i < n ==> steps[..n][..i] == steps[..i];
      assert OvertakenAt(s, steps, n) <==> ChangesCounter(Exec(s, steps[..n]), steps[n]);
      forall i | 0 <= i < n ensures OvertakenAt(s, steps[..n], i) <==> OvertakenAt(s, steps, i) {}
    }
  }

  /** A thread is turned away exactly if the limit is reached at its load. */
  lemma TurnedAwayExactly(s: Slots, t: ThreadId)
    requires Inv(s) && s.Of(t).Idle?
    ensures Next(s, Load(t)).Of(t).Idle? <==> |s.guards| == s.max
    ensures Next(s, Load(t)).guards == s.guards && Next(s, Load(t)).active == s.active
  {
    assert ThreadOk(s, t);
  }

  /** Below the limit, a thread that nobody overtakes gets its slot with the first exchange. */
  lemma UndisturbedThreadGetsASlot(s: Slots, t: ThreadId, g: GuardId, between: seq<Step>)
    requires s.Of(t).Idle? && s.active < s.max
    requires var loaded := Next(s, Load(t));
             && IsRun(loaded, between)
             && (forall e :: e in between && (e.Load? || e.Exchange?) ==> e.t != t)
             && forall i :: 0 <= i < |between| ==> !OvertakenAt(loaded, between, i)
    requires Enabled(Exec(Next(s, Load(t)), between), Exchange(t, g))
    ensures var m := Exec(Next(s, Load(t)), between);
            var s' := Next(m, Exchange(t, g));
            s'.guards == m.guards + {g} && s'.active == m.active + 1 && s'.Of(t).Idle?
  {
    UndisturbedLoad(Next(s, Load(t)), t, between);
  }
}
