/**
 Suspend and continue on Linux: a counter under a mutex, a condition variable, one subject
 thread and any number of other threads. Each action is one atomic step of the code; any
 interleaving of enabled actions is a run, and Spurious may wake the subject at any time.
 */
module SuspendProtocol {

  /** Where the subject is inside xtThreadSuspend, or inside xtThreadGetSuspendCount on itself. */
  datatype SubjectPc =
    | Running    // in no call
    | Acquiring  // before pthread_mutex_lock
    | Locked     // mutex held, before the increment
    | Testing    // mutex held, at the loop test
    | Blocked    // inside pthread_cond_wait, mutex released
    | Waking     // woken inside pthread_cond_wait, mutex not yet held again
    | Leaving    // mutex held, loop left, before the unlock
    | Asking                // reading its own count, before the lock
    | AskLocked             // mutex held, before the read
    | AskDone(value: int)   // mutex held, value read

  /** Where another thread is inside xtThreadContinue or xtThreadGetSuspendCount. */
  datatype OtherPc =
    | Idle
    | Continuing               // before the lock
    | ContinueLocked           // mutex held, before the decrement
    | Decremented(value: int)  // mutex held, the new value read
    | Unlocked(value: int)     // mutex released, before the test and the signal
    | Reading                  // before the lock
    | ReadLocked               // mutex held, before the read
    | ReadDone(value: int)     // mutex held, value read

  datatype Owner = Nobody | Subject | Other(id: nat)

  datatype State = State(
    count: int,
    owner: Owner,
    subject: SubjectPc,
    others: map<nat, OtherPc>,
    suspends: nat,   // increments done so far
    continues: nat   // decrements done so far
  )

  /** A caller is the subject itself or another thread. */
  datatype Caller = Self | Thread(id: nat)

  datatype Action =
    | CallSuspend(caller: Caller)
    | CallContinue(caller: Caller)
    | CallGetCount(caller: Caller)
    | SubjectLocks
    | Increments
    | Tests
    | Spurious
    | Reacquires
    | Returns
    | Locks(id: nat)
    | Decrements(id: nat)
    | Unlocks(id: nat)
    | Signals(id: nat)
    | Reads(id: nat)
    | AskLocks
    | AskReads
    | AskUnlocks

  /** xtThreadCreate: the counter starts at zero and the thread runs. */
  const INITIAL := State(0, Nobody, Running, map[], 0, 0)

  function PcOf(s: State, id: nat): (pc: OtherPc) {
    if id in s.others then s.others[id] else Idle
  }

  predicate Holds(pc: OtherPc) {
    pc.ContinueLocked? || pc.Decremented? || pc.ReadLocked? || pc.ReadDone?
  }

  predicate SubjectHolds(pc: SubjectPc) {
    pc.Locked? || pc.Testing? || pc.Leaving? || pc.AskLocked? || pc.AskDone?
  }

  predicate Enabled(s: State, a: Action) {
    match a
    case CallSuspend(Self) => s.subject.Running?
    case CallSuspend(Thread(id)) => PcOf(s, id).Idle?
    case CallContinue(Self) => s.subject.Running?
    case CallContinue(Thread(id)) => PcOf(s, id).Idle?
    case CallGetCount(Self) => s.subject.Running?
    case CallGetCount(Thread(id)) => PcOf(s, id).Idle?
    case SubjectLocks => s.subject.Acquiring? && s.owner.Nobody?
    case Increments => s.subject.Locked?
    case Tests => s.subject.Testing?
    case Spurious => s.subject.Blocked?
    case Reacquires => s.subject.Waking? && s.owner.Nobody?
    case Returns => s.subject.Leaving?
    case Locks(id) => (PcOf(s, id).Continuing? || PcOf(s, id).Reading?) && s.owner.Nobody?
    case Decrements(id) => PcOf(s, id).ContinueLocked?
    case Unlocks(id) => PcOf(s, id).Decremented? || PcOf(s, id).ReadDone?
    case Signals(id) => PcOf(s, id).Unlocked?
    case Reads(id) => PcOf(s, id).ReadLocked?
    case AskLocks => s.subject.Asking? && s.owner.Nobody?
    case AskReads => s.subject.AskLocked?
    case AskUnlocks => s.subject.AskDone?
  }

  function Step(s: State, a: Action): (next: State)
    requires Enabled(s, a)
  {
    match a
    case CallSuspend(Self) => s.(subject := Acquiring)
    case CallSuspend(Thread(_)) => s  // XT_EINVAL: only the subject may suspend itself
    case CallContinue(Self) => s      // XT_EINVAL: the subject may not continue itself
    case CallContinue(Thread(id)) => s.(others := s.others[id := Continuing])
    case CallGetCount(Self) => s.(subject := Asking)
    case CallGetCount(Thread(id)) => s.(others := s.others[id := Reading])
    case SubjectLocks => s.(subject := Locked, owner := Subject)
    case Increments => s.(subject := Testing, count := s.count + 1, suspends := s.suspends + 1)
    case Tests => if s.count > 0 then s.(subject := Blocked, owner := Nobody) else s.(subject := Leaving)
    case Spurious => s.(subject := Waking)
    case Reacquires => s.(subject := Testing, owner := Subject)
    case Returns => s.(subject := Running, owner := Nobody)
    case Locks(id) =>
      s.(owner := Other(id), others := s.others[id := if PcOf(s, id).Reading? then ReadLocked else ContinueLocked])
    case Decrements(id) =>
      s.(count := s.count - 1, continues := s.continues + 1, others := s.others[id := Decremented(s.count - 1)])
    case Unlocks(id) =>
      var pc := PcOf(s, id);
      s.(owner := Nobody, others := s.others[id := if pc.Decremented? then Unlocked(pc.value) else Idle])
    case Signals(id) =>
      s.(others := s.others[id := Idle],
         subject := if PcOf(s, id).value <= 0 && s.subject.Blocked? then Waking else s.subject)
    case Reads(id) => s.(others := s.others[id := ReadDone(s.count)])
    case AskLocks => s.(subject := AskLocked, owner := Subject)
    case AskReads => s.(subject := AskDone(s.count))
    case AskUnlocks => s.(subject := Running, owner := Nobody)
  }

  /** s' is reached from s by taking the actions in order. */
  ghost predicate Run(s: State, actions: seq<Action>, s': State)
    decreases |actions|
  {
    if actions == [] then s == s'
    else Enabled(s, actions[0]) && Run(Step(s, actions[0]), actions[1..], s')
  }

  /** A continue that saw a value of at most zero has not signalled yet. */
  ghost predicate WillSignal(s: State, id: nat) {
    var pc := PcOf(s, id);
    (pc.Decremented? || pc.Unlocked?) && pc.value <= 0
  }

  ghost predicate Invariant(s: State) {
    && s.count == s.suspends - s.continues
    && (s.owner.Subject? <==> SubjectHolds(s.subject))
    && (forall id :: Holds(PcOf(s, id)) <==> s.owner == Other(id))
    && (forall id :: (PcOf(s, id).Decremented? || PcOf(s, id).ReadDone?) ==> PcOf(s, id).value == s.count)
    && (s.subject.Leaving? ==> s.count <= 0)
    && (s.subject.AskDone? ==> s.subject.value == s.count)
    && (s.subject.Blocked? && s.count <= 0 ==> exists id :: WillSignal(s, id))
  }

  lemma StepKeepsInvariant(s: State, a: Action)
    requires Invariant(s) && Enabled(s, a)
    ensures Invariant(Step(s, a))
  {
    var s' := Step(s, a);
    if a.Decrements? {
      assert s'.count <= 0 ==> WillSignal(s', a.id);
    } else if s.subject.Blocked? && s.count <= 0 {
      var t :| WillSignal(s, t);
      assert s'.subject.Blocked? ==> WillSignal(s', t);
    }
  }

  /** Every state of every run satisfies the invariant. */
  lemma {:induction false} RunKeepsInvariant(s: State, actions: seq<Action>, s': State)
    requires Invariant(s) && Run(s, actions, s')
    ensures Invariant(s')
    decreases |actions|
  {
    if actions != [] {
      StepKeepsInvariant(s, actions[0]);
      RunKeepsInvariant(Step(s, actions[0]), actions[1..], s');
    }
  }

  ghost predicate Reachable(s: State) {
    exists actions :: Run(INITIAL, actions, s)
  }

  /**
   What callers rely on: the counter is suspends minus continues, at most one thread holds the
   mutex, Suspend leaves its wait only with a count of at most zero and the mutex held, no
   wake-up is lost, and a count being returned is the current one.
   */
  ghost predicate Safe(s: State) {
    && s.count == s.suspends - s.continues
    && (forall i, j :: Holds(PcOf(s, i)) && Holds(PcOf(s, j)) ==> i == j)
    && (forall i :: Holds(PcOf(s, i)) ==> !SubjectHolds(s.subject))
    && (Enabled(s, Returns) ==> s.count <= 0 && s.owner.Subject?)
    && (s.subject.Blocked? && s.count <= 0 ==> exists id :: WillSignal(s, id))
    && (forall id :: PcOf(s, id).ReadDone? ==> PcOf(s, id).value == s.count)
    && (s.subject.AskDone? ==> s.subject.value == s.count)
  }

  lemma InvariantIsSafe(s: State)
    requires Invariant(s)
    ensures Safe(s)
  {
  }

  /** Safety over whole runs, for any number of continuers and any spurious wake-ups. */
  lemma ReachableIsSafe(s: State)
    requires Reachable(s)
    ensures Invariant(s) && Safe(s)
  {
    hide Invariant, Safe;
    var actions :| Run(INITIAL, actions, s);
    InitialInvariant();
    RunKeepsInvariant(INITIAL, actions, s);
    InvariantIsSafe(s);
  }

  lemma InitialInvariant()
    ensures Invariant(INITIAL)
  {
  }

  // ---------------------------------------------------------------- progress

  /** Steps that finish calls already made: no new call and no spurious wake-up. */
  predicate Finishing(a: Action) {
    !a.CallSuspend? && !a.CallContinue? && !a.CallGetCount? && !a.Spurious?
  }

  ghost predicate FinishingRun(s: State, actions: seq<Action>, s': State) {
    Run(s, actions, s') && forall k :: 0 <= k < |actions| ==> Finishing(actions[k])
  }

  /** The subject is inside Suspend, past the increment. */
  predicate Suspended(s: State) {
    s.subject.Testing? || s.subject.Blocked? || s.subject.Waking? || s.subject.Leaving?
  }

  /** How many finishing steps a thread has left in its call. */
  function Weight(pc: OtherPc): (w: nat) {
    match pc
    case Idle => 0
    case Continuing => 4
    case ContinueLocked => 3
    case Decremented(_) => 2
    case Unlocked(_) => 1
    case Reading => 3
    case ReadLocked => 2
    case ReadDone(_) => 1
  }

  /** The same for a suspended subject that will not have to wait again. */
  function SubjectWeight(pc: SubjectPc): (w: nat) {
    match pc
    case Blocked => 4
    case Waking => 3
    case Testing => 2
    case Leaving => 1
    case _ => 0
  }

  function OthersLeft(others: map<nat, OtherPc>, n: nat): (w: nat) {
    if n == 0 then 0 else OthersLeft(others, n - 1) + if n - 1 in others then Weight(others[n - 1]) else 0
  }

  /** The finishing steps left in all calls, when the threads below n are all there are. */
  function StepsLeft(s: State, n: nat): (w: nat) {
    OthersLeft(s.others, n) + SubjectWeight(s.subject)
  }

  predicate Below(others: map<nat, OtherPc>, n: nat) {
    forall id :: id in others ==> id < n
  }

  lemma {:induction false} OneMoves(others: map<nat, OtherPc>, n: nat, id: nat, pc: OtherPc)
    requires id in others
    ensures var change := if id < n then Weight(pc) - Weight(others[id]) else 0;
      OthersLeft(others[id := pc], n) == OthersLeft(others, n) + change
  {
    if n > 0 {
      OneMoves(others, n - 1, id, pc);
    }
  }

  lemma SomeBound(others: map<nat, OtherPc>) returns (n: nat)
    ensures Below(others, n)
  {
    n := 0;
    var left := others.Keys;
    while left != {}
      invariant forall id :: id in others && id !in left ==> id < n
      decreases |left|
    {
      var id :| id in left;
      left := left - {id};
      if id >= n { n := id + 1; }
    }
  }

  /**
   While a Suspend whose count is at most zero has not returned, every finishing step of any
   thread lowers the number of steps left, and only the last one makes it return.
   */
  lemma FinishingLowers(s: State, a: Action, n: nat)
    requires Invariant(s) && Suspended(s) && s.count <= 0 && Below(s.others, n)
    requires Enabled(s, a) && Finishing(a)
    ensures var t := Step(s, a);
      && StepsLeft(t, n) < StepsLeft(s, n) && Below(t.others, n)
      && (t.subject.Running? || (Invariant(t) && Suspended(t) && t.count <= 0))
  {
    hide Invariant, OthersLeft;
    NotWithoutMutex(s);
    StepKeepsInvariant(s, a);
    var t := Step(s, a);
    if t.others != s.others {
      var id := a.id;
      OneMoves(s.others, n, id, t.others[id]);
    }
  }

  lemma NotWithoutMutex(s: State)
    requires Invariant(s)
    ensures s.subject.Leaving? ==> s.count <= 0
  {
  }

  /** And as long as it has not returned, some finishing step can be taken. */
  lemma SomeStepEnabled(s: State) returns (a: Action)
    requires Invariant(s) && Suspended(s) && s.count <= 0
    ensures Enabled(s, a) && Finishing(a)
  {
    match s.subject {
      case Testing => a := Tests;
      case Leaving => a := Returns;
      case Waking =>
        if s.owner.Other? {
          var id := s.owner.id;
          assert Holds(PcOf(s, id));
          a := match PcOf(s, id)
            case ContinueLocked => Decrements(id)
            case ReadLocked => Reads(id)
            case _ => Unlocks(id);
        } else {
          a := Reacquires;
        }
      case Blocked =>
        var id :| WillSignal(s, id);
        a := if PcOf(s, id).Unlocked? then Signals(id) else Unlocks(id);
    }
  }

  lemma {:induction false} StaysRunning(s: State, actions: seq<Action>, s': State)
    requires s.subject.Running? && FinishingRun(s, actions, s')
    ensures s'.subject.Running?
    decreases |actions|
  {
    if actions != [] {
      StaysRunning(Step(s, actions[0]), actions[1..], s');
    }
  }

  /** A finishing run either makes the Suspend return or is no longer than the steps that were left. */
  lemma {:induction false} RunsAreBounded(s: State, actions: seq<Action>, s': State, n: nat)
    requires Invariant(s) && Suspended(s) && s.count <= 0 && Below(s.others, n) && FinishingRun(s, actions, s')
    ensures s'.subject.Running?
      || (Invariant(s') && Suspended(s') && s'.count <= 0 && |actions| + StepsLeft(s', n) <= StepsLeft(s, n))
    decreases |actions|
  {
    hide Invariant, StepsLeft, Enabled, Step;
    if actions != [] {
      var t, rest := Step(s, actions[0]), actions[1..];
      FinishingLowers(s, actions[0], n);
      assert FinishingRun(t, rest, s');
      if t.subject.Running? {
        StaysRunning(t, rest, s');
      } else {
        RunsAreBounded(t, rest, s', n);
      }
    }
  }

  /**
   No subject stays asleep for want of a signal: from every reachable state with a count of at
   most zero, every run that finishes the calls already made, in whatever order, and ends only
   when none of them can go on, ends with Suspend returned. No further Continue and no spurious
   wake-up is needed, and no such run is longer than the steps left in those calls.
   */
  lemma SuspendReturns(s: State, actions: seq<Action>, s': State)
    requires Reachable(s) && Suspended(s) && s.count <= 0 && FinishingRun(s, actions, s')
    requires forall a :: Enabled(s', a) ==> !Finishing(a)
    ensures s'.subject.Running?
  {
    hide Reachable, Invariant, StepsLeft, Enabled;
    ReachableIsSafe(s);
    var n := SomeBound(s.others);
    RunsAreBounded(s, actions, s', n);
    if !s'.subject.Running? {
      var a := SomeStepEnabled(s');
    }
  }

  /** Such a run exists: Suspend can return. */
  lemma SuspendCanReturn(s: State) returns (actions: seq<Action>, s': State)
    requires Reachable(s) && Suspended(s) && s.count <= 0
    ensures FinishingRun(s, actions, s') && s'.subject.Running?
  {
    hide Reachable, Invariant;
    ReachableIsSafe(s);
    var n := SomeBound(s.others);
    actions, s' := ReturnFrom(s, n);
  }

  lemma ReturnFrom(s: State, n: nat) returns (actions: seq<Action>, s': State)
    requires Invariant(s) && Suspended(s) && s.count <= 0 && Below(s.others, n)
    ensures FinishingRun(s, actions, s') && s'.subject.Running?
    decreases StepsLeft(s, n)
  {
    hide Invariant, StepsLeft;
    var a := SomeStepEnabled(s);
    FinishingLowers(s, a, n);
    var t := Step(s, a);
    if t.subject.Running? {
      actions, s' := [a], t;
      assert Run(t, actions[1..], t);
    } else {
      var rest;
      rest, s' := ReturnFrom(t, n);
      actions := [a] + rest;
      assert actions[1..] == rest;
    }
  }

  /** The steps of the subject itself in a run, from inside its wait up to the end of the loop. */
  function OwnSteps(actions: seq<Action>): (n: nat) {
    if actions == [] then 0
    else OwnSteps(actions[1..]) + if actions[0] in {Spurious, Reacquires, Tests} then 1 else 0
  }

  /**
   Once the count of a suspended subject is at most zero, no run whatsoever, with new calls of any
   thread and spurious wake-ups, makes it positive before Suspend returns. The subject never
   blocks again, and at most three steps of its own lie between it and the return.
   */
  lemma {:induction false} ReleasedStays(s: State, actions: seq<Action>, s': State)
    requires Suspended(s) && s.count <= 0 && Run(s, actions, s') && Returns !in actions
    ensures Suspended(s') && s'.count <= 0
    ensures OwnSteps(actions) + SubjectWeight(s'.subject) <= SubjectWeight(s.subject)
    decreases |actions|
  {
    if actions != [] {
      ReleasedStays(Step(s, actions[0]), actions[1..], s');
    }
  }

  /**
   Suspend blocks exactly when it has to: the test after the increment blocks if and only if
   more suspends than continues have been counted, so continues made early are not lost.
   */
  lemma BlocksOnlyWhenAhead(s: State)
    requires Reachable(s) && Enabled(s, Tests)
    ensures Step(s, Tests).subject.Blocked? <==> s.suspends > s.continues
    ensures Step(s, Tests).subject.Leaving? <==> s.suspends <= s.continues
  {
    ReachableIsSafe(s);
  }

  /** However often it wakes without a signal, a subject whose count stays positive blocks again. */
  lemma SpuriousWakeBlocksAgain(s: State)
    requires Reachable(s) && s.subject.Blocked? && s.count > 0 && s.owner.Nobody?
    ensures Enabled(s, Spurious) && Run(s, [Spurious, Reacquires, Tests], s)
  {
    var u := Step(s, Spurious);
    var v := Step(u, Reacquires);
    var all, two, one := [Spurious, Reacquires, Tests], [Reacquires, Tests], [Tests];
    assert Run(Step(v, Tests), [], s);
    assert one[1..] == [] && Run(v, one, s);
    assert two[1..] == one && Run(u, two, s);
    assert all[1..] == two;
  }

  // ---------------------------------------------------------------- calls and counts

  function SuspendCalls(actions: seq<Action>): (n: nat) {
    if actions == [] then 0 else SuspendCalls(actions[1..]) + if actions[0] == CallSuspend(Self) then 1 else 0
  }

  function ContinueCalls(actions: seq<Action>): (n: nat) {
    if actions == [] then 0
    else ContinueCalls(actions[1..]) + if actions[0].CallContinue? && actions[0].caller.Thread? then 1 else 0
  }

  /** The subject has called Suspend and not yet counted it. */
  function Entering(s: State): (n: nat) {
    if s.subject.Acquiring? || s.subject.Locked? then 1 else 0
  }

  predicate Starting(pc: OtherPc) {
    pc.Continuing? || pc.ContinueLocked?
  }

  /** The threads that have called Continue and not yet counted it. */
  ghost function Pending(others: map<nat, OtherPc>): (ids: set<nat>) {
    set id | id in others && Starting(others[id])
  }

  /** A thread that moves on enters or leaves the pending ones. */
  lemma PendingMoves(others: map<nat, OtherPc>, id: nat, pc: OtherPc)
    ensures var was := id in others && Starting(others[id]);
      |Pending(others[id := pc])| == |Pending(others)| + (if Starting(pc) then 1 else 0) - if was then 1 else 0
  {
    var p := Pending(others);
    if Starting(pc) {
      assert Pending(others[id := pc]) == p + {id};
    } else {
      assert Pending(others[id := pc]) == p - {id};
    }
    assert id in p ==> p + {id} == p;
    assert id !in p ==> p - {id} == p;
  }

  lemma StepCountsSuspends(s: State, a: Action)
    requires Enabled(s, a)
    ensures Step(s, a).suspends + Entering(Step(s, a)) == s.suspends + Entering(s) + SuspendCalls([a])
  {
    OneCall(a);
  }

  lemma StepCountsContinues(s: State, a: Action)
    requires Enabled(s, a)
    ensures var t := Step(s, a);
      t.continues + |Pending(t.others)| == s.continues + |Pending(s.others)| + ContinueCalls([a])
  {
    hide Pending, ContinueCalls;
    OneCall(a);
    match a
    case CallContinue(Thread(id)) => PendingMoves(s.others, id, Continuing);
    case CallGetCount(Thread(id)) => PendingMoves(s.others, id, Reading);
    case Locks(id) => PendingMoves(s.others, id, Step(s, a).others[id]);
    case Decrements(id) => PendingMoves(s.others, id, Step(s, a).others[id]);
    case Unlocks(id) => PendingMoves(s.others, id, Step(s, a).others[id]);
    case Signals(id) => PendingMoves(s.others, id, Idle);
    case Reads(id) => PendingMoves(s.others, id, Step(s, a).others[id]);
    case _ =>
  }

  lemma OneCall(a: Action)
    ensures SuspendCalls([a]) == if a.CallSuspend? && a.caller.Self? then 1 else 0
    ensures ContinueCalls([a]) == if a.CallContinue? && a.caller.Thread? then 1 else 0
  {
    assert [a][1..] == [];
  }

  /** Every run: each call of Suspend and of Continue is counted once, unless it is still on its way to the counter. */
  lemma {:induction false} RunCounts(s: State, actions: seq<Action>, s': State)
    requires Run(s, actions, s')
    ensures s'.suspends + Entering(s') == s.suspends + Entering(s) + SuspendCalls(actions)
    ensures s'.continues + |Pending(s'.others)| == s.continues + |Pending(s.others)| + ContinueCalls(actions)
    decreases |actions|
  {
    hide Enabled, Step, Entering, Pending;
    if actions != [] {
      StepCountsSuspends(s, actions[0]);
      StepCountsContinues(s, actions[0]);
      RunCounts(Step(s, actions[0]), actions[1..], s');
      FirstCall(actions);
    }
  }

  lemma FirstCall(actions: seq<Action>)
    requires actions != []
    ensures SuspendCalls(actions) == SuspendCalls([actions[0]]) + SuspendCalls(actions[1..])
    ensures ContinueCalls(actions) == ContinueCalls([actions[0]]) + ContinueCalls(actions[1..])
  {
    assert [actions[0]][1..] == [];
  }

  /**
   The counters of every reachable state in terms of the calls made; when nobody is inside a call,
   the count is the suspends called minus the continues called, however often it was asked for.
   */
  lemma CallsAreCounted(actions: seq<Action>, s: State)
    requires Run(INITIAL, actions, s)
    ensures s.suspends == SuspendCalls(actions) - Entering(s)
    ensures s.continues == ContinueCalls(actions) - |Pending(s.others)|
    ensures s.subject.Running? && (forall id :: PcOf(s, id).Idle?) ==>
              s.count == SuspendCalls(actions) - ContinueCalls(actions)
  {
    hide Run, Invariant;
    RunCounts(INITIAL, actions, s);
    assert Pending(INITIAL.others) == {};
    assert Reachable(s);
    ReachableIsSafe(s);
    if forall id :: PcOf(s, id).Idle? {
      forall id | id in s.others ensures !Starting(s.others[id]) {
        assert PcOf(s, id).Idle?;
      }
      assert Pending(s.others) == {};
    }
  }

  const BLOCKED := State(1, Nobody, Blocked, map[], 1, 0)

  const RELEASED := State(0, Nobody, Waking, map[0 := Idle], 1, 1)

  lemma Suspends()
    ensures Run(INITIAL, [CallSuspend(Self), SubjectLocks, Increments, Tests], BLOCKED)
  {
    var a := [CallSuspend(Self), SubjectLocks, Increments, Tests];
    assert Run(BLOCKED, a[4..], BLOCKED);
    assert a[3..][1..] == a[4..] && a[2..][1..] == a[3..] && a[1..][1..] == a[2..];
  }

  lemma Continues()
    ensures Run(BLOCKED, [CallContinue(Thread(0)), Locks(0), Decrements(0), Unlocks(0), Signals(0)], RELEASED)
  {
    var b := [CallContinue(Thread(0)), Locks(0), Decrements(0), Unlocks(0), Signals(0)];
    assert Run(RELEASED, b[5..], RELEASED);
    assert b[4..][1..] == b[5..] && b[3..][1..] == b[4..] && b[2..][1..] == b[3..] && b[1..][1..] == b[2..];
    var called := Step(BLOCKED, b[0]);
    var locked := Step(called, b[1]);
    var lowered := Step(locked, b[2]);
    var unlocked := Step(lowered, b[3]);
    assert unlocked.others == map[0 := Unlocked(0)];
    assert Step(unlocked, b[4]) == RELEASED by {
      assert unlocked.others[0 := Idle] == map[0 := Idle];
    }
    assert Run(unlocked, b[4..], RELEASED);
    assert Run(lowered, b[3..], RELEASED);
    assert Run(locked, b[2..], RELEASED);
  }

  /** A subject suspends itself and blocks, another thread continues it, and it returns. */
  lemma SuspendedAndContinued()
    ensures var actions := [CallSuspend(Self), SubjectLocks, Increments, Tests, CallContinue(Thread(0)), Locks(0),
                            Decrements(0), Unlocks(0), Signals(0), Reacquires, Tests, Returns];
      Run(INITIAL, actions, State(0, Nobody, Running, map[0 := Idle], 1, 1))
  {
    hide Run;
    var a := [CallSuspend(Self), SubjectLocks, Increments, Tests];
    var b := [CallContinue(Thread(0)), Locks(0), Decrements(0), Unlocks(0), Signals(0)];
    var c := [Reacquires, Tests, Returns];
    Suspends();
    Continues();
    ReturnsThen();
    RunsJoin(INITIAL, a, BLOCKED, b, RELEASED);
    assert a + b + c == [CallSuspend(Self), SubjectLocks, Increments, Tests, CallContinue(Thread(0)), Locks(0),
                         Decrements(0), Unlocks(0), Signals(0), Reacquires, Tests, Returns];
    RunsJoin(INITIAL, a + b, RELEASED, c, State(0, Nobody, Running, map[0 := Idle], 1, 1));
  }

  lemma ReturnsThen()
    ensures Run(RELEASED, [Reacquires, Tests, Returns], State(0, Nobody, Running, map[0 := Idle], 1, 1))
  {
    var c := [Reacquires, Tests, Returns];
    var end := State(0, Nobody, Running, map[0 := Idle], 1, 1);
    assert Run(end, c[3..], end);
    assert c[2..][1..] == c[3..] && c[1..][1..] == c[2..];
  }

  lemma {:induction false} RunsJoin(s: State, a: seq<Action>, t: State, b: seq<Action>, u: State)
    requires Run(s, a, t) && Run(t, b, u)
    ensures Run(s, a + b, u)
    decreases |a|
  {
    if a == [] {
      assert a + b == b;
    } else {
      assert (a + b)[1..] == a[1..] + b;
      RunsJoin(Step(s, a[0]), a[1..], t, b, u);
    }
  }
}
