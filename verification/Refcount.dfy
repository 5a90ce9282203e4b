/** Saturating reference counts shared by any number of threads: what both implementations must do.

    A counter holds values 0..MAX; MAX is sticky. `Replay` is the atomic counter itself: it replays a history of
    completed operations one at a time and rejects a history that the atomic counter could not have produced. */
module RefcountSpec {
  import opened Wrappers

  const MAX := 0xFFFF_FFFF // CRYPTO_REFCOUNT_MAX

  datatype Op = Inc | Dec

  /** A completed call; `zero` is the value returned by CRYPTO_refcount_dec_and_test_zero. */
  datatype Event = IncDone | DecDone(zero: bool)

  function Apply(count: nat, e: Event): Option<nat> {
    match e
    case IncDone => Some(if count < MAX then count + 1 else count)
    case DecDone(zero) =>
      if count == 0 then None
      else if count == MAX then (if zero then None else Some(count))
      else if zero == (count == 1) then Some(count - 1) else None
  }

  function Replay(count: nat, log: seq<Event>): Option<nat> {
    if log == [] then Some(count)
    else match Replay(count, log[..|log| - 1])
      case None => None
      case Some(c) => Apply(c, log[|log| - 1])
  }

  lemma ReplayAppend(count: nat, log: seq<Event>, e: Event)
    requires Replay(count, log).Some?
    ensures Replay(count, log + [e]) == Apply(Replay(count, log).value, e)
  {
    assert (log + [e])[..|log + [e]| - 1] == log;
  }

  /** Saturation is for ever: after the counter has once reached MAX it stays there and no decrement returns 1. */
  lemma {:induction false} SaturationIsSticky(count: nat, log: seq<Event>, k: nat)
    requires k <= |log| && Replay(count, log).Some? && Replay(count, log[..k]) == Some(MAX)
    ensures Replay(count, log) == Some(MAX)
    ensures forall i :: k <= i < |log| ==> log[i] != DecDone(true)
  {
    if k < |log| {
      var front := log[..|log| - 1];
      assert front[..k] == log[..k];
      SaturationIsSticky(count, front, k);
    } else {
      assert log[..k] == log;
    }
  }

  function Sum(s: seq<nat>): nat {
    if s == [] then 0 else s[0] + Sum(s[1..])
  }

  lemma {:induction false} SumUpdate(s: seq<nat>, i: nat, v: nat)
    requires i < |s|
    ensures Sum(s[i := v]) == Sum(s) - s[i] + v && Sum(s) >= s[i]
  {
    if i == 0 {
      assert s[i := v][1..] == s[1..];
    } else {
      assert s[i := v][1..] == s[1..][i - 1 := v];
      SumUpdate(s[1..], i - 1, v);
    }
  }

  /** The history facts that callers rely on, given the number of references still held. */
  ghost predicate Correct(start: nat, count: nat, live: nat, log: seq<Event>) {
    && Replay(start, log) == Some(count)
    && (count < MAX ==> count == live)
    && (forall i :: 0 <= i < |log| && log[i] == DecDone(true) ==> i == |log| - 1)
    && (log != [] && log[|log| - 1] == DecDone(true) <==> count == 0)
  }

  /** One atomic operation, made while some reference is live, keeps the history correct. */
  lemma CorrectAfter(start: nat, count: nat, live: nat, log: seq<Event>, e: Event)
    requires Correct(start, count, live, log) && 0 < count <= MAX
    requires e.DecDone? ==> live > 0 && e.zero == (count == 1)
    ensures Apply(count, e).Some?
    ensures Correct(start, Apply(count, e).value, if e.IncDone? then live + 1 else live - 1, log + [e])
  {
    ReplayAppend(start, log, e);
    var log' := log + [e];
    assert log'[|log'| - 1] == e;
  }
}

/** refcount_c11.c: compare-and-swap loops. Each thread runs its calls one instruction at a time; a weak
    compare-exchange may fail spuriously, and on any failure it reloads `expected`. */
module RefcountC11 {
  import opened Wrappers
  import opened RefcountSpec

  datatype Pc = Idle | Loop(op: Op, expected: nat) | Aborted

  /** `held[t]` counts the references thread t owns. It is bookkeeping for the callers' side of the contract. */
  datatype State = State(count: nat, pc: seq<Pc>, held: seq<nat>, log: seq<Event>)

  datatype Action =
    | Begin(t: nat, op: Op)             // enter the call: atomic_load
    | Try(t: nat, spurious: bool)       // one turn of the loop
    | Transfer(from: nat, to: nat)      // hand a reference to another thread

  /** Only a thread that owns a reference may copy it or give it up. */
  predicate Enabled(s: State, a: Action)
    requires |s.pc| == |s.held|
  {
    match a
    case Begin(t, _) => t < |s.pc| && s.pc[t].Idle? && s.held[t] > 0
    case Try(t, _) => t < |s.pc| && s.pc[t].Loop?
    case Transfer(from, to) =>
      from < |s.pc| && to < |s.pc| && from != to && s.pc[from].Idle? && s.held[from] > 0
  }

  function Next(s: State, a: Action): (s': State)
    requires |s.pc| == |s.held| && Enabled(s, a)
    ensures |s'.pc| == |s'.held| == |s.pc|
  {
    match a
    case Begin(t, op) => s.(pc := s.pc[t := Loop(op, s.count)])
    case Transfer(from, to) =>
      s.(held := s.held[from := s.held[from] - 1][to := s.held[to] + 1])
    case Try(t, spurious) =>
      var expected := s.pc[t].expected;
      match s.pc[t].op
      case Inc =>
        if expected == MAX then Finish(s, t, IncDone, s.held[t] + 1)
        else if s.count == expected && !spurious then
          Finish(s.(count := expected + 1), t, IncDone, s.held[t] + 1)
        else s.(pc := s.pc[t := Loop(Inc, s.count)])
      case Dec =>
        var left := if s.held[t] > 0 then s.held[t] - 1 else 0;
        if expected == 0 then s.(pc := s.pc[t := Aborted])
        else if expected == MAX then Finish(s, t, DecDone(false), left)
        else if s.count == expected && !spurious then
          Finish(s.(count := expected - 1), t, DecDone(expected - 1 == 0), left)
        else s.(pc := s.pc[t := Loop(Dec, s.count)])
  }

  function Finish(s: State, t: nat, e: Event, held: nat): State
    requires t < |s.pc| == |s.held|
  {
    State(s.count, s.pc[t := Idle], s.held[t := held], s.log + [e])
  }

  ghost predicate Init(start: nat, s: State) {
    && 0 < start < MAX && s.count == start && s.log == []
    && |s.pc| == |s.held| && Sum(s.held) == start
    && forall t :: 0 <= t < |s.pc| ==> s.pc[t].Idle?
  }

  ghost predicate Invariant(start: nat, s: State) {
    && |s.pc| == |s.held|
    && s.count <= MAX
    && Correct(start, s.count, Sum(s.held), s.log)
    && forall t :: 0 <= t < |s.pc| ==> ThreadOk(s.count, s.pc[t], s.held[t])
  }

  ghost predicate ThreadOk(count: nat, pc: Pc, held: nat) {
    && !pc.Aborted?
    && (pc.Loop? ==> held > 0 && 0 < pc.expected <= MAX && (pc.expected == MAX ==> count == MAX))
  }

  lemma StepKeepsInvariant(start: nat, s: State, a: Action)
    requires Invariant(start, s) && Enabled(s, a)
    ensures Invariant(start, Next(s, a))
  {
    hide Invariant, Next;
    match a
    case Begin(t, op) => BeginKeepsInvariant(start, s, t, op);
    case Transfer(from, to) => TransferKeepsInvariant(start, s, from, to);
    case Try(t, spurious) => TryKeepsInvariant(start, s, t, spurious);
  }

  lemma BeginKeepsInvariant(start: nat, s: State, t: nat, op: Op)
    requires Invariant(start, s) && Enabled(s, Begin(t, op))
    ensures Invariant(start, Next(s, Begin(t, op)))
  {
    SumUpdate(s.held, t, s.held[t]);
  }

  lemma TransferKeepsInvariant(start: nat, s: State, from: nat, to: nat)
    requires Invariant(start, s) && Enabled(s, Transfer(from, to))
    ensures Invariant(start, Next(s, Transfer(from, to)))
  {
    hide Correct;
    SumUpdate(s.held, from, s.held[from] - 1);
    SumUpdate(s.held[from := s.held[from] - 1], to, s.held[to] + 1);
  }

  lemma TryKeepsInvariant(start: nat, s: State, t: nat, spurious: bool)
    requires Invariant(start, s) && Enabled(s, Try(t, spurious))
    ensures Invariant(start, Next(s, Try(t, spurious)))
  {
    TryKeepsHistory(start, s, t, spurious);
    SumUpdate(s.held, t, s.held[t]);
    TryKeepsThreads(s, t, spurious);
  }

  lemma TryKeepsThreads(s: State, t: nat, spurious: bool)
    requires |s.pc| == |s.held| && Enabled(s, Try(t, spurious)) && 0 < s.count <= MAX
    requires forall u :: 0 <= u < |s.pc| ==> ThreadOk(s.count, s.pc[u], s.held[u])
    ensures var s' := Next(s, Try(t, spurious));
            forall u :: 0 <= u < |s'.pc| ==> ThreadOk(s'.count, s'.pc[u], s'.held[u])
  {
    var s' := Next(s, Try(t, spurious));
    assert ThreadOk(s.count, s.pc[t], s.held[t]);
    forall u | 0 <= u < |s'.pc| ensures ThreadOk(s'.count, s'.pc[u], s'.held[u]) {
      assert ThreadOk(s.count, s.pc[u], s.held[u]);
    }
  }

  lemma TryKeepsHistory(start: nat, s: State, t: nat, spurious: bool)
    requires Invariant(start, s) && Enabled(s, Try(t, spurious))
    ensures var s' := Next(s, Try(t, spurious));
            s'.count <= MAX && Correct(start, s'.count, Sum(s'.held), s'.log)
  {
    hide Replay;
    assert ThreadOk(s.count, s.pc[t], s.held[t]);
    SumUpdate(s.held, t, s.held[t] + 1);
    SumUpdate(s.held, t, s.held[t] - 1);
    if s.pc[t].op == Inc {
      CorrectAfter(start, s.count, Sum(s.held), s.log, IncDone);
    } else {
      CorrectAfter(start, s.count, Sum(s.held), s.log, DecDone(s.count == 1));
    }
  }

  function Run(s: State, actions: seq<Action>): Option<State>
    requires |s.pc| == |s.held|
    ensures Run(s, actions).Some? ==> |Run(s, actions).value.pc| == |Run(s, actions).value.held|
  {
    if actions == [] then Some(s)
    else match Run(s, actions[..|actions| - 1])
      case None => None
      case Some(m) =>
        var a := actions[|actions| - 1];
        if Enabled(m, a) then Some(Next(m, a)) else None
  }

  /** Every interleaving, with every pattern of spurious failures: the completed calls form a history of the
      atomic counter, the count equals the live references until it saturates, at most one decrement returns 1
      and it is the last call, and no call aborts. */
  lemma {:induction false} EveryRunIsCorrect(start: nat, s: State, actions: seq<Action>)
    requires Init(start, s) && Run(s, actions).Some?
    ensures var s' := Run(s, actions).value;
            && Correct(start, s'.count, Sum(s'.held), s'.log)
            && Invariant(start, s')
            && forall t :: 0 <= t < |s'.pc| ==> !s'.pc[t].Aborted?
  {
    if actions == [] {
    } else {
      EveryRunIsCorrect(start, s, actions[..|actions| - 1]);
      StepKeepsInvariant(start, Run(s, actions[..|actions| - 1]).value, actions[|actions| - 1]);
    }
  }

  lemma {:induction false} LogGrows(s: State, actions: seq<Action>, k: nat)
    requires |s.pc| == |s.held| && k <= |actions| && Run(s, actions).Some?
    ensures Run(s, actions[..k]).Some? && Run(s, actions[..k]).value.log <= Run(s, actions).value.log
  {
    hide Next, Enabled;
    if k == |actions| {
      assert actions[..k] == actions;
    } else {
      var front := actions[..|actions| - 1];
      assert front[..k] == actions[..k];
      LogGrows(s, front, k);
      StepExtendsLog(Run(s, front).value, actions[|actions| - 1]);
    }
  }

  lemma StepExtendsLog(s: State, a: Action)
    requires |s.pc| == |s.held| && Enabled(s, a)
    ensures s.log <= Next(s, a).log
  {
  }

  /** Once the counter has reached 0xffffffff it never changes again, and no later decrement returns 1, whatever the
      threads do. */
  lemma SaturatedForEver(start: nat, s: State, actions: seq<Action>, k: nat)
    requires Init(start, s) && k <= |actions| && Run(s, actions).Some?
    requires Run(s, actions[..k]).Some? && Run(s, actions[..k]).value.count == MAX
    ensures var before, after := Run(s, actions[..k]).value, Run(s, actions).value;
            && after.count == MAX
            && before.log <= after.log
            && forall i :: |before.log| <= i < |after.log| ==> after.log[i] != DecDone(true)
  {
    hide Run, Replay;
    LogGrows(s, actions, k);
    EveryRunIsCorrect(start, s, actions[..k]);
    EveryRunIsCorrect(start, s, actions);
    var before, after := Run(s, actions[..k]).value.log, Run(s, actions).value.log;
    assert after[..|before|] == before;
    SaturationIsSticky(start, after, |before|);
  }
}

/** refcount_lock.c: the same operations under one global lock, a memory access at a time. */
module RefcountLock {
  import opened Wrappers
  import opened RefcountSpec

  datatype Pc =
    | Idle
    | Waiting(op: Op)              // at CRYPTO_STATIC_MUTEX_lock_write
    | Locked(op: Op)               // lock taken, *count not yet read
    | Loaded(op: Op, value: nat)   // *count read, not yet written back
    | Stored(op: Op)               // *count updated, return value not yet read
    | Aborted

  datatype State = State(count: nat, owner: Option<nat>, pc: seq<Pc>, held: seq<nat>, log: seq<Event>)

  datatype Action =
    | Begin(t: nat, op: Op)
    | Advance(t: nat)
    | Transfer(from: nat, to: nat)

  predicate Enabled(s: State, a: Action)
    requires |s.pc| == |s.held|
  {
    match a
    case Begin(t, _) => t < |s.pc| && s.pc[t].Idle? && s.held[t] > 0
    case Transfer(from, to) =>
      from < |s.pc| && to < |s.pc| && from != to && s.pc[from].Idle? && s.held[from] > 0
    case Advance(t) =>
      && t < |s.pc| && !s.pc[t].Idle? && !s.pc[t].Aborted?
      && (s.pc[t].Waiting? ==> s.owner.None?)
  }

  function Next(s: State, a: Action): (s': State)
    requires |s.pc| == |s.held| && Enabled(s, a)
    ensures |s'.pc| == |s'.held| == |s.pc|
  {
    match a
    case Begin(t, op) => s.(pc := s.pc[t := Waiting(op)])
    case Transfer(from, to) =>
      s.(held := s.held[from := s.held[from] - 1][to := s.held[to] + 1])
    case Advance(t) =>
      match s.pc[t]
      case Waiting(op) => s.(owner := Some(t), pc := s.pc[t := Locked(op)])
      case Locked(op) =>
        if op == Dec && s.count == 0 then s.(pc := s.pc[t := Aborted])
        else s.(pc := s.pc[t := Loaded(op, s.count)])
      case Loaded(Inc, v) =>
        s.(count := if v < MAX then v + 1 else s.count, pc := s.pc[t := Stored(Inc)],
           held := s.held[t := s.held[t] + 1])
      case Loaded(Dec, v) =>
        s.(count := if 0 < v < MAX then v - 1 else s.count, pc := s.pc[t := Stored(Dec)],
           held := s.held[t := if s.held[t] > 0 then s.held[t] - 1 else 0])
      case Stored(op) =>
        s.(owner := None, pc := s.pc[t := Idle], log := s.log + [EventOf(op, s.count)])
  }

  function EventOf(op: Op, count: nat): Event {
    if op == Inc then IncDone else DecDone(count == 0)
  }

  /** The history including a call that has stored its result but not yet returned. */
  function PendingLog(s: State): seq<Event> {
    if s.owner.Some? && s.owner.value < |s.pc| && s.pc[s.owner.value].Stored?
    then s.log + [EventOf(s.pc[s.owner.value].op, s.count)]
    else s.log
  }

  ghost predicate Init(start: nat, s: State) {
    && 0 < start < MAX && s.count == start && s.log == [] && s.owner.None?
    && |s.pc| == |s.held| && Sum(s.held) == start
    && forall t :: 0 <= t < |s.pc| ==> s.pc[t].Idle?
  }

  predicate InCriticalSection(pc: Pc) {
    pc.Locked? || pc.Loaded? || pc.Stored?
  }

  ghost predicate Invariant(start: nat, s: State) {
    && |s.pc| == |s.held|
    && s.count <= MAX
    && Correct(start, s.count, Sum(s.held), PendingLog(s))
    && forall t :: 0 <= t < |s.pc| ==> ThreadOk(s.count, s.owner == Some(t), s.pc[t], s.held[t])
  }

  ghost predicate ThreadOk(count: nat, owner: bool, pc: Pc, held: nat) {
    && !pc.Aborted?
    && (InCriticalSection(pc) <==> owner)
    && (pc.Waiting? || pc.Locked? || pc.Loaded? ==> held > 0)
    && (pc.Loaded? ==> pc.value == count)
  }

  lemma StepKeepsInvariant(start: nat, s: State, a: Action)
    requires Invariant(start, s) && Enabled(s, a)
    ensures Invariant(start, Next(s, a))
  {
    hide Invariant, Next;
    match a
    case Begin(t, op) => BeginKeepsInvariant(start, s, t, op);
    case Transfer(from, to) => TransferKeepsInvariant(start, s, from, to);
    case Advance(t) => AdvanceKeepsInvariant(start, s, t);
  }

  lemma BeginKeepsInvariant(start: nat, s: State, t: nat, op: Op)
    requires Invariant(start, s) && Enabled(s, Begin(t, op))
    ensures Invariant(start, Next(s, Begin(t, op)))
  {
    hide Correct;
  }

  lemma TransferKeepsInvariant(start: nat, s: State, from: nat, to: nat)
    requires Invariant(start, s) && Enabled(s, Transfer(from, to))
    ensures Invariant(start, Next(s, Transfer(from, to)))
  {
    hide Correct;
    SumUpdate(s.held, from, s.held[from] - 1);
    SumUpdate(s.held[from := s.held[from] - 1], to, s.held[to] + 1);
  }

  lemma AdvanceKeepsInvariant(start: nat, s: State, t: nat)
    requires Invariant(start, s) && Enabled(s, Advance(t))
    ensures Invariant(start, Next(s, Advance(t)))
  {
    var s' := Next(s, Advance(t));
    assert s'.count <= MAX && Correct(start, s'.count, Sum(s'.held), PendingLog(s')) by {
      if s.pc[t].Loaded? {
        StoreKeepsHistory(start, s, t);
      } else {
        assert ThreadOk(s.count, s.owner == Some(t), s.pc[t], s.held[t]);
      }
    }
    HeldIsCounted(start, s, t);
    AdvanceKeepsThreads(s, t);
  }

  lemma HeldIsCounted(start: nat, s: State, t: nat)
    requires Invariant(start, s) && t < |s.pc|
    ensures s.held[t] > 0 ==> s.count > 0
  {
    SumUpdate(s.held, t, s.held[t]);
  }

  lemma AdvanceKeepsThreads(s: State, t: nat)
    requires |s.pc| == |s.held| && Enabled(s, Advance(t)) && (s.held[t] > 0 ==> s.count > 0)
    requires forall u :: 0 <= u < |s.pc| ==> ThreadOk(s.count, s.owner == Some(u), s.pc[u], s.held[u])
    ensures var s' := Next(s, Advance(t));
            forall u :: 0 <= u < |s'.pc| ==> ThreadOk(s'.count, s'.owner == Some(u), s'.pc[u], s'.held[u])
  {
    var s' := Next(s, Advance(t));
    assert ThreadOk(s.count, s.owner == Some(t), s.pc[t], s.held[t]);
    forall u | 0 <= u < |s'.pc| ensures ThreadOk(s'.count, s'.owner == Some(u), s'.pc[u], s'.held[u]) {
      assert ThreadOk(s.count, s.owner == Some(u), s.pc[u], s.held[u]);
    }
  }

  lemma StoreKeepsHistory(start: nat, s: State, t: nat)
    requires Invariant(start, s) && t < |s.pc| && s.pc[t].Loaded?
    ensures var s' := Next(s, Advance(t));
            s'.count <= MAX && Correct(start, s'.count, Sum(s'.held), PendingLog(s'))
  {
    hide Replay, Correct;
    assert ThreadOk(s.count, s.owner == Some(t), s.pc[t], s.held[t]);
    SumUpdate(s.held, t, s.held[t] + 1);
    SumUpdate(s.held, t, s.held[t] - 1);
    CountOfLive(start, s);
    if s.pc[t].op == Inc {
      CorrectAfter(start, s.count, Sum(s.held), s.log, IncDone);
    } else {
      CorrectAfter(start, s.count, Sum(s.held), s.log, DecDone(s.count == 1));
    }
  }

  lemma CountOfLive(start: nat, s: State)
    requires Invariant(start, s)
    ensures s.count < MAX ==> s.count == Sum(s.held)
  {
  }

  function Run(s: State, actions: seq<Action>): Option<State>
    requires |s.pc| == |s.held|
    ensures Run(s, actions).Some? ==> |Run(s, actions).value.pc| == |Run(s, actions).value.held|
  {
    if actions == [] then Some(s)
    else match Run(s, actions[..|actions| - 1])
      case None => None
      case Some(m) =>
        var a := actions[|actions| - 1];
        if Enabled(m, a) then Some(Next(m, a)) else None
  }

  /** The locked twin meets the same specification in every interleaving, at most one thread at a time is inside,
      and no call aborts. */
  lemma {:induction false} EveryRunIsCorrect(start: nat, s: State, actions: seq<Action>)
    requires Init(start, s) && Run(s, actions).Some?
    ensures var s' := Run(s, actions).value;
            && Correct(start, s'.count, Sum(s'.held), PendingLog(s'))
            && Invariant(start, s')
            && (forall t, u | 0 <= t < |s'.pc| && 0 <= u < |s'.pc| ::
                  InCriticalSection(s'.pc[t]) && InCriticalSection(s'.pc[u]) ==> t == u)
            && forall t :: 0 <= t < |s'.pc| ==> !s'.pc[t].Aborted?
  {
    if actions == [] {
    } else {
      EveryRunIsCorrect(start, s, actions[..|actions| - 1]);
      StepKeepsInvariant(start, Run(s, actions[..|actions| - 1]).value, actions[|actions| - 1]);
    }
  }

  /** The history with a call that has stored its result only grows. */
  lemma {:induction false} LogGrows(start: nat, s: State, actions: seq<Action>, k: nat)
    requires Init(start, s) && k <= |actions| && Run(s, actions).Some?
    ensures Run(s, actions[..k]).Some? && PendingLog(Run(s, actions[..k]).value) <= PendingLog(Run(s, actions).value)
  {
    hide Next, Enabled, PendingLog;
    if k == |actions| {
      assert actions[..k] == actions;
    } else {
      var front := actions[..|actions| - 1];
      assert front[..k] == actions[..k];
      LogGrows(start, s, front, k);
      EveryRunIsCorrect(start, s, front);
      StepExtendsLog(start, Run(s, front).value, actions[|actions| - 1]);
    }
  }

  lemma StepExtendsLog(start: nat, s: State, a: Action)
    requires Invariant(start, s) && Enabled(s, a)
    ensures PendingLog(s) <= PendingLog(Next(s, a))
  {
    hide Correct;
    if a.Advance? {
      assert ThreadOk(s.count, s.owner == Some(a.t), s.pc[a.t], s.held[a.t]);
    }
    if s.owner.Some? && s.owner.value < |s.pc| {
      var t := s.owner.value;
      assert ThreadOk(s.count, s.owner == Some(t), s.pc[t], s.held[t]);
    }
  }

  /** Once the counter has reached 0xffffffff it never changes again, and no later decrement returns 1, whatever the
      threads do. */
  lemma SaturatedForEver(start: nat, s: State, actions: seq<Action>, k: nat)
    requires Init(start, s) && k <= |actions| && Run(s, actions).Some?
    requires Run(s, actions[..k]).Some? && Run(s, actions[..k]).value.count == MAX
    ensures var before, after := Run(s, actions[..k]).value, Run(s, actions).value;
            && after.count == MAX
            && PendingLog(before) <= PendingLog(after)
            && forall i :: |PendingLog(before)| <= i < |PendingLog(after)| ==> PendingLog(after)[i] != DecDone(true)
  {
    hide Run, Replay, PendingLog;
    LogGrows(start, s, actions, k);
    EveryRunIsCorrect(start, s, actions[..k]);
    EveryRunIsCorrect(start, s, actions);
    var before, after := PendingLog(Run(s, actions[..k]).value), PendingLog(Run(s, actions).value);
    assert after[..|before|] == before;
    SaturationIsSticky(start, after, |before|);
  }
}
