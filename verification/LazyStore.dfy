/**
 * Double-checked locking in store.py, as atomic steps of any number of threads. Initialisation
 * may fail at any time and is then retried by a later caller.
 */
module LazyStore {
  import opened Common

  /** Where a thread stands in _get_instance; the lock is held from Locked to Releasing and in Failing. */
  datatype Pc =
    | Idle
    | Checking
    | Waiting
    | Locked
    | Constructing
    | Migrating(ref: nat)
    | Publishing(ref: nat)
    | Rereading
    | Releasing(got: Option<nat>)
    | Failing
    | Holding(got: Option<nat>)

  /**
   * The shared fields, the threads, and the history: references whose init_db has finished,
   * references published so far, and what was handed to callers.
   */
  datatype State = State(
    instance: Option<nat>,
    lock: Option<nat>,
    threads: map<nat, Pc>,
    nextRef: nat,
    ready: set<nat>,
    published: seq<nat>,
    returned: set<Option<nat>>)

  const INITIAL := State(None, None, map[], 0, {}, [], {})

  /** One atomic step of a thread; initOk decides init_db when the step is its end. */
  datatype Action = Action(thread: nat, initOk: bool)

  function PcOf(s: State, t: nat): Pc { if t in s.threads then s.threads[t] else Idle }

  predicate Enabled(s: State, a: Action) { PcOf(s, a.thread) == Waiting ==> s.lock == None }

  function Step(s: State, a: Action): State {
    if !Enabled(s, a) then s
    else
      var t := a.thread;
      match PcOf(s, t)
      case Idle => s.(threads := s.threads[t := Checking])
      case Checking => s.(threads := s.threads[t := if s.instance.Some? then Holding(s.instance) else Waiting])
      case Waiting => s.(lock := Some(t), threads := s.threads[t := Locked])
      case Locked => s.(threads := s.threads[t := if s.instance.Some? then Releasing(s.instance) else Constructing])
      case Constructing => s.(nextRef := s.nextRef + 1, threads := s.threads[t := Migrating(s.nextRef)])
      case Migrating(ref) =>
        if a.initOk then s.(ready := s.ready + {ref}, threads := s.threads[t := Publishing(ref)])
        else s.(threads := s.threads[t := Failing])
      case Publishing(ref) =>
        s.(instance := Some(ref), published := s.published + [ref], threads := s.threads[t := Rereading])
      case Rereading => s.(threads := s.threads[t := Releasing(s.instance)])
      case Releasing(got) => s.(lock := None, threads := s.threads[t := Holding(got)])
      case Failing => s.(lock := None, threads := s.threads[t := Idle])
      case Holding(got) => s.(returned := s.returned + {got}, threads := s.threads[t := Idle])
  }

  function Run(s: State, actions: seq<Action>): State
    decreases |actions|
  {
    if actions == [] then s else Run(Step(s, actions[0]), actions[1..])
  }

  predicate HoldsLock(pc: Pc) {
    pc.Locked? || pc.Constructing? || pc.Migrating? || pc.Publishing? || pc.Rereading? || pc.Releasing? || pc.Failing?
  }

  /** What a thread at a program point knows about the shared instance. */
  ghost predicate Knows(s: State, pc: Pc) {
    match pc
    case Constructing => s.instance == None
    case Migrating(_) => s.instance == None
    case Publishing(ref) => s.instance == None && ref in s.ready
    case Failing => s.instance == None
    case Rereading => s.instance.Some?
    case Releasing(got) => got.Some? && got == s.instance
    case Holding(got) => got.Some? && got == s.instance
    case _ => true
  }

  ghost predicate Inv(s: State) {
    && (forall t: nat :: HoldsLock(PcOf(s, t)) <==> s.lock == Some(t))
    && (forall t: nat :: Knows(s, PcOf(s, t)))
    && s.published == (if s.instance.Some? then [s.instance.value] else [])
    && (s.instance.Some? ==> s.instance.value in s.ready)
    && (forall r | r in s.returned :: r.Some? && r == s.instance)
  }

  lemma StepKeepsInv(s: State, a: Action)
    requires Inv(s)
    ensures Inv(Step(s, a))
  {
    if Enabled(s, a) {
      var t, s' := a.thread, Step(s, a);
      var pc := PcOf(s, t);
      assert Knows(s, pc) && (HoldsLock(pc) <==> s.lock == Some(t));
      forall u: nat ensures HoldsLock(PcOf(s', u)) <==> s'.lock == Some(u) {
        if u != t { assert PcOf(s', u) == PcOf(s, u); }
      }
      forall u: nat ensures Knows(s', PcOf(s', u)) {
        if u != t {
          assert PcOf(s', u) == PcOf(s, u) && Knows(s, PcOf(s, u));
          assert HoldsLock(pc) ==> !HoldsLock(PcOf(s, u));
        }
      }
    }
  }

  lemma {:induction false} RunKeepsInv(s: State, actions: seq<Action>)
    requires Inv(s)
    ensures Inv(Run(s, actions))
    decreases |actions|
  {
    if actions != [] {
      StepKeepsInv(s, actions[0]);
      RunKeepsInv(Step(s, actions[0]), actions[1..]);
    }
  }

  /**
   * In every interleaving: at most one initialisation ever succeeds; every caller that gets
   * something gets that one instance; and it was fully migrated before anyone could hold it.
   */
  lemma OneInstance(actions: seq<Action>, t: nat)
    ensures var s := Run(INITIAL, actions);
            && |s.published| <= 1
            && (forall r | r in s.returned :: r.Some? && r.value in s.ready && s.published == [r.value])
            && (PcOf(s, t).Holding? ==>
                  var r := PcOf(s, t).got;
                  r.Some? && r.value in s.ready && s.published == [r.value])
  {
    assert Inv(INITIAL);
    RunKeepsInv(INITIAL, actions);
    var s := Run(INITIAL, actions);
    assert Knows(s, PcOf(s, t));
  }

  /** The instance never changes once it is there. */
  lemma {:induction false} InstanceStays(s: State, actions: seq<Action>)
    requires Inv(s) && s.instance.Some?
    ensures Run(s, actions).instance == s.instance
    decreases |actions|
  {
    if actions != [] {
      assert Knows(s, PcOf(s, actions[0].thread));
      StepKeepsInv(s, actions[0]);
      InstanceStays(Step(s, actions[0]), actions[1..]);
    }
  }

  /** No deadlock: whenever a thread is inside a call, some thread inside a call can move. */
  lemma SomeoneMoves(s: State, t: nat) returns (a: Action)
    requires Inv(s) && PcOf(s, t) != Idle
    ensures PcOf(s, a.thread) != Idle && Enabled(s, a) && Step(s, a) != s
  {
    var mover := if s.lock.Some? then s.lock.value else t;
    a := Action(mover, true);
    assert HoldsLock(PcOf(s, mover)) <==> s.lock == Some(mover);
    assert Step(s, a).threads[mover] != PcOf(s, mover);
  }

  /** How many own steps a thread still has in its call, at most. */
  function Rank(pc: Pc): nat {
    match pc
    case Idle => 0
    case Holding(_) => 1
    case Failing => 2
    case Releasing(_) => 2
    case Rereading => 3
    case Publishing(_) => 4
    case Migrating(_) => 5
    case Constructing => 6
    case Locked => 7
    case Waiting => 8
    case Checking => 9
  }

  /**
   * Every own step brings a call nearer to its end and moves no other thread: a call takes a
   * bounded number of own steps. A waiter can still be overtaken while others fail and retry.
   */
  lemma CallsEnd(s: State, a: Action, u: nat)
    requires PcOf(s, a.thread) != Idle && Enabled(s, a)
    ensures Rank(PcOf(Step(s, a), a.thread)) < Rank(PcOf(s, a.thread))
    ensures u != a.thread ==> PcOf(Step(s, a), u) == PcOf(s, u)
  {
    match PcOf(s, a.thread)
    case _ =>
  }

  /** A failed initialisation leaves nothing behind for the next caller to trip over. */
  lemma FailureLeavesNothing(s: State, t: nat, initOk: bool)
    requires Inv(s) && PcOf(s, t) == Failing
    ensures var s' := Step(s, Action(t, initOk));
            s'.lock == None && s'.instance == None && s'.published == [] && PcOf(s', t) == Idle && s'.returned == {}
  {
    assert Knows(s, PcOf(s, t));
  }

  /** n own steps of one thread, with initialisation working. */
  function Alone(s: State, t: nat, n: nat): State
    decreases n
  {
    if n == 0 then s else Alone(Step(s, Action(t, true)), t, n - 1)
  }

  /** A finished init_db is published and handed out, whatever the other threads are waiting for. */
  lemma SuccessIsReturned(s: State, t: nat)
    requires Inv(s) && PcOf(s, t).Migrating?
    ensures var s' := Alone(s, t, 5);
            && PcOf(s', t) == Idle && s'.lock == None && s'.instance == Some(PcOf(s, t).ref)
            && s'.returned == s.returned + {s'.instance} && s'.published == s.published + [PcOf(s, t).ref]
            && PcOf(s, t).ref in s'.ready
  {
    var a := Action(t, true);
    var s1 := Step(s, a);
    var s2 := Step(s1, a);
    var s3 := Step(s2, a);
    var s4 := Step(s3, a);
    assert Alone(s, t, 5) == Alone(s1, t, 4) == Alone(s2, t, 3);
    assert Alone(s2, t, 3) == Alone(s3, t, 2) == Alone(s4, t, 1) == Step(s4, a);
  }

  /** The fast path: once there is an instance a call returns it in three steps and leaves the lock alone. */
  lemma FastPath(s: State, t: nat)
    requires PcOf(s, t) == Idle && s.instance.Some?
    ensures var s' := Alone(s, t, 3);
            s' == s.(threads := s.threads[t := Idle], returned := s.returned + {s.instance})
  {
    var a := Action(t, true);
    var s1 := Step(s, a);
    var s2 := Step(s1, a);
    assert Alone(s, t, 3) == Alone(s1, t, 2) == Alone(s2, t, 1) == Step(s2, a);
    assert s.threads[t := Checking][t := Holding(s.instance)][t := Idle] == s.threads[t := Idle];
  }

  /** The slow path: a call that finds the lock free and no instance makes one, migrates it and returns it. */
  lemma SlowPath(s: State, t: nat)
    requires Inv(s) && PcOf(s, t) == Idle && s.instance == None && s.lock == None
    ensures var s' := Alone(s, t, 10);
            && PcOf(s', t) == Idle && s'.lock == None && s'.instance == Some(s.nextRef)
            && s'.returned == {s'.instance} && s.nextRef in s'.ready
  {
    var a := Action(t, true);
    var s1 := Step(s, a);
    var s2 := Step(s1, a);
    var s3 := Step(s2, a);
    var s4 := Step(s3, a);
    var s5 := Step(s4, a);
    StepKeepsInv(s, a);
    StepKeepsInv(s1, a);
    StepKeepsInv(s2, a);
    StepKeepsInv(s3, a);
    StepKeepsInv(s4, a);
    assert PcOf(s5, t) == Migrating(s.nextRef) && s5.returned == s.returned == {};
    assert Alone(s, t, 10) == Alone(s1, t, 9) == Alone(s2, t, 8);
    assert Alone(s2, t, 8) == Alone(s3, t, 7) == Alone(s4, t, 6) == Alone(s5, t, 5);
    SuccessIsReturned(s5, t);
  }
}
