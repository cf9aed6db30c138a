/** Permanent deletion of trashed runs and experiments (routers/trash.py, utils/trash_cleanup.py). */
module Trash {
  import opened Common

  // ---- the recursive listing ----

  function Flatten(pages: seq<seq<string>>): seq<string> {
    if pages == [] then [] else pages[0] + Flatten(pages[1..])
  }

  /** fetch_experiments from page k on: a page that raises yields nothing, and nothing after it is asked for. */
  function Fetch(pages: seq<seq<string>>, raising: set<nat>, k: nat): seq<string>
    requires k <= |pages|
    decreases |pages| - k
  {
    if k == |pages| || k in raising then [] else pages[k] + Fetch(pages, raising, k + 1)
  }

  /** The listing is always the pages before the first one that raises: never a gap, never part of a page. */
  lemma {:induction false} FetchIsPagePrefix(pages: seq<seq<string>>, raising: set<nat>, k: nat) returns (n: nat)
    requires k <= |pages|
    ensures k <= n <= |pages| && Fetch(pages, raising, k) == Flatten(pages[k..n])
    ensures forall i | k <= i < n :: i !in raising
    ensures n == |pages| || n in raising
    decreases |pages| - k
  {
    if k == |pages| || k in raising {
      n := k;
      assert pages[k..k] == [];
    } else {
      n := FetchIsPagePrefix(pages, raising, k + 1);
      assert pages[k..n][1..] == pages[k + 1..n];
    }
  }

  lemma {:induction false} FlattenConcat(a: seq<seq<string>>, b: seq<seq<string>>)
    ensures Flatten(a + b) == Flatten(a) + Flatten(b)
  {
    if a == [] {
      assert a + b == b;
    } else {
      FlattenConcat(a[1..], b);
      assert (a + b)[1..] == a[1..] + b;
    }
  }

  /** And so a prefix of the full list, equal to it when no page raises. */
  lemma FetchIsPrefix(pages: seq<seq<string>>, raising: set<nat>)
    ensures Fetch(pages, raising, 0) <= Flatten(pages)
    ensures (forall i: nat | i < |pages| :: i !in raising) ==> Fetch(pages, raising, 0) == Flatten(pages)
  {
    var n := FetchIsPagePrefix(pages, raising, 0);
    assert pages == pages[0..n] + pages[n..];
    FlattenConcat(pages[0..n], pages[n..]);
    if n == |pages| { assert pages[n..] == []; }
  }

  // ---- the cleanup ----

  datatype RunInfo = RunInfo(experiment: string, deleted: bool)

  datatype ExperimentInfo = ExperimentInfo(deleted: bool, lastUpdate: Option<int>)

  /** older_than: absent, present but without effect (an empty string), a bound in milliseconds, or malformed. */
  datatype Age = Absent | Blank | Bound(delta: int) | Malformed

  /** The comma-separated lists are split and trimmed; a list that was given may still come out empty. */
  datatype Request = Request(age: Age, runIds: Option<seq<string>>, experimentIds: Option<seq<string>>, now: int)

  function Threshold(req: Request): int { req.now - if req.age.Bound? then req.age.delta else 0 }

  /** deletedRuns and so on are the lists of the 200 response. */
  datatype Response =
    | BadRequest
    | NotFound
    | Done(deletedRuns: seq<string>, failedRuns: seq<string>, deletedExperiments: seq<string>,
           failedExperiments: seq<string>)

  /** Runs and experiments that are in the trash. */
  ghost predicate Trashed(runs: map<string, RunInfo>, id: string) { id in runs && runs[id].deleted }

  ghost predicate NoRepeats(s: seq<string>) { forall i, j | 0 <= i < j < |s| :: s[i] != s[j] }

  /**
   * What the store can do and what it will refuse, and the order in which it lists runs. The
   * refusals are fixed while a request lasts.
   */
  datatype Env = Env(
    canDeleteRuns: bool,
    canDeleteExperiments: bool,
    runFails: string -> bool,
    experimentFails: string -> bool,
    order: seq<string>)

  type Runs = map<string, RunInfo>

  /** The store lists every run, each once. */
  ghost predicate Lists(order: seq<string>, runs: Runs) {
    NoRepeats(order) && forall id | id in runs :: id in order
  }

  /** What the run loop may hard-delete: trashed runs that meet the bound and that the store does not refuse. */
  ghost predicate Deletable(env: Env, runs: Runs, bounded: bool, oldEnough: seq<string>, id: string) {
    Trashed(runs, id) && (bounded ==> id in oldEnough) && !env.runFails(id)
  }

  ghost predicate TrashedIn(runs: Runs, experiment: string, id: string) {
    Trashed(runs, id) && runs[id].experiment == experiment
  }

  /** a is listed no later than b. */
  ghost predicate UpTo(order: seq<string>, a: string, b: string) {
    exists i, j | 0 <= i <= j < |order| :: order[i] == a && order[j] == b
  }

  /** Deleting the trashed runs of an experiment in listed order gets to this one before the first refusal. */
  ghost predicate Reached(env: Env, runs: Runs, experiment: string, id: string) {
    && TrashedIn(runs, experiment, id)
    && forall r | TrashedIn(runs, experiment, r) && UpTo(env.order, r, id) :: !env.runFails(r)
  }

  /** The store refuses none of the experiment's trashed runs. */
  ghost predicate NoRefusal(env: Env, runs: Runs, experiment: string) {
    forall id | TrashedIn(runs, experiment, id) :: !env.runFails(id)
  }

  /** Nothing stands in the way of deleting an experiment for good. */
  ghost predicate Destroyable(env: Env, runs: Runs, experiments: map<string, ExperimentInfo>, experiment: string) {
    experiment in experiments && !env.experimentFails(experiment) && NoRefusal(env, runs, experiment)
  }

  /** b is a without some runs, none of them refused. */
  ghost predicate Thinned(env: Env, a: Runs, b: Runs) {
    && b.Keys <= a.Keys && (forall id | id in b :: b[id] == a[id])
    && forall id | id in a && id !in b :: !env.runFails(id)
  }

  /** Runs deleted along the way change nothing about the others. */
  lemma ThinnedReached(env: Env, a: Runs, b: Runs, experiment: string, id: string)
    requires Thinned(env, a, b) && id in b
    ensures Reached(env, b, experiment, id) <==> Reached(env, a, experiment, id)
  {
    if Reached(env, b, experiment, id) {
      forall r | TrashedIn(a, experiment, r) && UpTo(env.order, r, id) ensures !env.runFails(r) {
        if r in b { assert TrashedIn(b, experiment, r); }
      }
    }
    if Reached(env, a, experiment, id) {
      forall r | TrashedIn(b, experiment, r) && UpTo(env.order, r, id) ensures !env.runFails(r) {
        assert TrashedIn(a, experiment, r);
      }
    }
  }

  lemma ThinnedDestroyable(env: Env, a: Runs, b: Runs, xs: map<string, ExperimentInfo>, experiment: string)
    requires Thinned(env, a, b)
    ensures Destroyable(env, b, xs, experiment) <==> Destroyable(env, a, xs, experiment)
  {
    forall id | TrashedIn(b, experiment, id) ensures TrashedIn(a, experiment, id) {
    }
    forall id | TrashedIn(a, experiment, id) && env.runFails(id) ensures TrashedIn(b, experiment, id) {
    }
  }

  /** The runs without the trashed ones of an experiment among some ids. */
  ghost function Swept(runs: Runs, experiment: string, ids: seq<string>): Runs {
    map id | id in runs && !(TrashedIn(runs, experiment, id) && id in ids) :: runs[id]
  }

  lemma SweptStep(env: Env, runs: Runs, experiment: string, ids: seq<string>, id: string)
    requires id !in ids && Willing(env, runs, experiment, ids)
    ensures Willing(env, runs, experiment, ids + [id]) <==> (TrashedIn(runs, experiment, id) ==> !env.runFails(id))
    ensures TrashedIn(Swept(runs, experiment, ids), experiment, id) <==> TrashedIn(runs, experiment, id)
    ensures Swept(runs, experiment, ids + [id])
         == if TrashedIn(runs, experiment, id) then Swept(runs, experiment, ids) - {id}
            else Swept(runs, experiment, ids)
  {
  }

  /** None of the trashed runs of the experiment among these ids is refused. */
  ghost predicate Willing(env: Env, runs: Runs, experiment: string, ids: seq<string>) {
    forall id | id in ids && TrashedIn(runs, experiment, id) :: !env.runFails(id)
  }

  /** Where the ids up to a run are not refused, deletion gets to it. */
  lemma ReachedBefore(env: Env, runs: Runs, experiment: string, n: nat, j: nat)
    requires NoRepeats(env.order) && j < n <= |env.order| && Willing(env, runs, experiment, env.order[..n])
    requires TrashedIn(runs, experiment, env.order[j])
    ensures Reached(env, runs, experiment, env.order[j])
  {
    forall r | TrashedIn(runs, experiment, r) && UpTo(env.order, r, env.order[j]) ensures !env.runFails(r) {
      var i, k :| 0 <= i <= k < |env.order| && env.order[i] == r && env.order[k] == env.order[j];
      assert k == j;
      assert env.order[..n][i] == r;
    }
  }

  /** A refused run in the list stops deletion from getting to it and to the runs behind it. */
  lemma NotReachedAfter(env: Env, runs: Runs, experiment: string, n: nat, j: nat)
    requires n <= j < |env.order| && TrashedIn(runs, experiment, env.order[n]) && env.runFails(env.order[n])
    ensures !Reached(env, runs, experiment, env.order[j])
  {
    assert UpTo(env.order, env.order[n], env.order[j]);
  }

  /** Deletion got through the first n listed ids, which are all of them or stand before a refused one. */
  ghost predicate StopsAt(env: Env, runs: Runs, experiment: string, n: nat) {
    && Lists(env.order, runs) && n <= |env.order| && Willing(env, runs, experiment, env.order[..n])
    && (n < |env.order| ==> TrashedIn(runs, experiment, env.order[n]) && env.runFails(env.order[n]))
  }

  lemma ReachedIff(env: Env, runs: Runs, experiment: string, n: nat, id: string)
    requires StopsAt(env, runs, experiment, n) && TrashedIn(runs, experiment, id)
    ensures Reached(env, runs, experiment, id) <==> id in env.order[..n]
  {
    assert id in env.order;
    var j :| 0 <= j < |env.order| && env.order[j] == id;
    if j < n {
      assert env.order[..n][j] == id;
      ReachedBefore(env, runs, experiment, n, j);
    } else {
      NotReachedAfter(env, runs, experiment, n, j);
      assert id !in env.order[..n];
    }
  }

  /** What deleting an experiment, or the attempt, does to the runs. */
  ghost predicate Removes(env: Env, before: Runs, after: Runs, experiment: string) {
    && Thinned(env, before, after)
    && forall id | id in before :: id !in after <==> Reached(env, before, experiment, id)
  }

  lemma SweptRemoves(env: Env, runs: Runs, experiment: string, n: nat)
    requires StopsAt(env, runs, experiment, n)
    ensures Removes(env, runs, Swept(runs, experiment, env.order[..n]), experiment)
  {
    forall id | TrashedIn(runs, experiment, id)
      ensures Reached(env, runs, experiment, id) <==> id in env.order[..n]
    {
      ReachedIff(env, runs, experiment, n, id);
    }
  }

  lemma SweptUpTo(env: Env, runs: Runs, experiment: string, n: nat)
    requires StopsAt(env, runs, experiment, n)
    ensures Removes(env, runs, Swept(runs, experiment, env.order[..n]), experiment)
    ensures n == |env.order| <==> NoRefusal(env, runs, experiment)
  {
    SweptRemoves(env, runs, experiment, n);
    if n == |env.order| { assert env.order[..n] == env.order; }
  }

  /** Runs that go with one of the target experiments, or with the attempt to delete it. */
  ghost predicate Lost(env: Env, runs: Runs, targets: seq<string>, id: string) {
    id in runs && runs[id].experiment in targets && Reached(env, runs, runs[id].experiment, id)
  }

  ghost predicate RemovesAll(env: Env, before: Runs, after: Runs, targets: seq<string>) {
    && Thinned(env, before, after)
    && forall id | id in before :: id !in after <==> Lost(env, before, targets, id)
  }

  lemma RemovesAllStep(env: Env, a: Runs, b: Runs, c: Runs, targets: seq<string>, e: string)
    requires RemovesAll(env, a, b, targets) && Removes(env, b, c, e)
    ensures RemovesAll(env, a, c, targets + [e])
  {
    forall id | id in a ensures id !in c <==> Lost(env, a, targets + [e], id) {
      if id in b { ThinnedReached(env, a, b, e, id); }
    }
  }

  /** Each target ends in one of the lists, and exactly those that can be destroyed, once each, in the first. */
  ghost predicate Sorted(env: Env, runs: Runs, experiments: map<string, ExperimentInfo>, targets: seq<string>,
                         deleted: seq<string>, failed: seq<string>) {
    && multiset(deleted) + multiset(failed) == multiset(targets) && NoRepeats(deleted)
    && forall e :: e in deleted <==> e in targets && Destroyable(env, runs, experiments, e)
  }

  lemma SortedStep(env: Env, runs: Runs, now: Runs, xs: map<string, ExperimentInfo>, targets: seq<string>,
                   deleted: seq<string>, failed: seq<string>, e: string)
    requires Sorted(env, runs, xs, targets, deleted, failed) && Thinned(env, runs, now)
    ensures var xs' := xs - set x | x in deleted;
            if Destroyable(env, now, xs', e) then Sorted(env, runs, xs, targets + [e], deleted + [e], failed)
            else Sorted(env, runs, xs, targets + [e], deleted, failed + [e])
  {
    var xs' := xs - set x | x in deleted;
    ThinnedDestroyable(env, runs, now, xs', e);
    assert Destroyable(env, runs, xs', e) <==> e !in deleted && Destroyable(env, runs, xs, e);
  }

  class Backend {
    var runs: Runs
    var experiments: map<string, ExperimentInfo>
    const env: Env

    constructor (runs: Runs, experiments: map<string, ExperimentInfo>, env: Env)
      ensures this.runs == runs && this.experiments == experiments && this.env == env
    {
      this.runs, this.experiments, this.env := runs, experiments, env;
    }

    /** The run loop over the distinct targets, in any order. */
    method DeleteRuns(targets: seq<string>, bounded: bool, oldEnough: seq<string>)
        returns (deleted: seq<string>, failed: seq<string>)
      modifies this`runs
      ensures NoRepeats(deleted) && NoRepeats(failed)
      ensures forall id :: id in deleted <==> id in targets && Deletable(env, old(runs), bounded, oldEnough, id)
      ensures forall id :: id in failed <==> id in targets && !Deletable(env, old(runs), bounded, oldEnough, id)
      ensures runs == old(runs) - set id | id in deleted
    {
      deleted, failed := [], [];
      var todo := set id | id in targets;
      while todo != {}
        invariant forall id | id in todo :: id in targets && id !in deleted && id !in failed
        invariant forall id | id in targets :: id in todo || id in deleted || id in failed
        invariant NoRepeats(deleted) && NoRepeats(failed)
        invariant forall id | id in deleted :: id in targets && Deletable(env, old(runs), bounded, oldEnough, id)
        invariant forall id | id in failed :: id in targets && !Deletable(env, old(runs), bounded, oldEnough, id)
        invariant runs == old(runs) - set id | id in deleted
        decreases todo
      {
        var id :| id in todo;
        todo := todo - {id};
        if id !in runs || !runs[id].deleted {
          failed := failed + [id];
        } else if bounded && id !in oldEnough {
          failed := failed + [id];
        } else if env.runFails(id) {
          failed := failed + [id];
        } else {
          runs := runs - {id};
          deleted := deleted + [id];
        }
      }
    }

    /**
     * hard_delete_experiment_with_runs: the trashed runs in listed order, then the experiment; the
     * first refusal ends it, and what was deleted before it stays deleted.
     */
    method HardDeleteExperiment(experiment: string) returns (ok: bool)
      requires Lists(env.order, runs)
      modifies this`runs, this`experiments
      ensures ok <==> Destroyable(env, old(runs), old(experiments), experiment)
      ensures Removes(env, old(runs), runs, experiment)
      ensures experiments == if ok then old(experiments) - {experiment} else old(experiments)
    {
      ok := DeleteTrashedRuns(experiment);
      if ok {
        ok := experiment in experiments && !env.experimentFails(experiment);
        if ok { experiments := experiments - {experiment}; }
      }
    }

    /** The loop over the experiment's trashed runs. */
    method DeleteTrashedRuns(experiment: string) returns (ok: bool)
      requires Lists(env.order, runs)
      modifies this`runs
      ensures ok <==> NoRefusal(env, old(runs), experiment)
      ensures Removes(env, old(runs), runs, experiment)
    {
      ghost var before := runs;
      assert runs == Swept(before, experiment, []);
      for i := 0 to |env.order|
        invariant runs == Swept(before, experiment, env.order[..i])
        invariant Willing(env, before, experiment, env.order[..i])
      {
        var id := env.order[i];
        assert env.order[..i + 1] == env.order[..i] + [id];
        SweptStep(env, before, experiment, env.order[..i], id);
        if id in runs && runs[id].deleted && runs[id].experiment == experiment {
          if env.runFails(id) {
            SweptUpTo(env, before, experiment, i);
            return false;
          }
          runs := runs - {id};
        }
      }
      SweptUpTo(env, before, experiment, |env.order|);
      ok := true;
    }

    /** The experiment loop: listed order, repetitions included. */
    method DeleteExperiments(targets: seq<string>) returns (deleted: seq<string>, failed: seq<string>)
      requires Lists(env.order, runs)
      modifies this`runs, this`experiments
      ensures Sorted(env, old(runs), old(experiments), targets, deleted, failed)
      ensures experiments == old(experiments) - set e | e in deleted
      ensures RemovesAll(env, old(runs), runs, targets)
    {
      deleted, failed := [], [];
      for i := 0 to |targets|
        invariant Sorted(env, old(runs), old(experiments), targets[..i], deleted, failed)
        invariant experiments == old(experiments) - set e | e in deleted
        invariant RemovesAll(env, old(runs), runs, targets[..i]) && Lists(env.order, runs)
      {
        var e := targets[i];
        assert targets[..i + 1] == targets[..i] + [e];
        SortedStep(env, old(runs), runs, old(experiments), targets[..i], deleted, failed, e);
        ghost var before := runs;
        var ok := HardDeleteExperiment(e);
        RemovesAllStep(env, old(runs), before, runs, targets[..i], e);
        if ok {
          deleted := deleted + [e];
        } else {
          failed := failed + [e];
        }
      }
      assert targets[..|targets|] == targets;
    }

    ghost predicate Fetchable(ids: seq<string>)
      reads this`experiments
    {
      forall e | e in ids :: e in experiments
    }

    /** Every experiment of the list is in the trash and, under a bound, was last touched before the threshold. */
    ghost predicate Eligible(ids: seq<string>, age: Age, threshold: int)
      reads this`experiments
    {
      forall e | e in ids && e in experiments ::
        && experiments[e].deleted
        && (age.Bound? ==> experiments[e].lastUpdate.Some? && experiments[e].lastUpdate.value < threshold)
    }

    /** The checks on explicitly named experiments. */
    method CheckExperiments(ids: seq<string>, age: Age, threshold: int) returns (refusal: Option<Response>)
      ensures refusal == Some(NotFound) <==> !Fetchable(ids)
      ensures refusal == Some(BadRequest) <==> Fetchable(ids) && !Eligible(ids, age, threshold)
      ensures refusal.None? <==> Fetchable(ids) && Eligible(ids, age, threshold)
    {
      for i := 0 to |ids|
        invariant Fetchable(ids[..i])
      {
        if ids[i] !in experiments { return Some(NotFound); }
        assert ids[..i + 1] == ids[..i] + [ids[i]];
      }
      assert ids[..|ids|] == ids;
      var active := exists e | e in ids :: !experiments[e].deleted;
      if active { return Some(BadRequest); }
      if age.Bound? {
        var young := exists e | e in ids ::
          experiments[e].lastUpdate.None? || experiments[e].lastUpdate.value >= threshold;
        if young { return Some(BadRequest); }
      }
      refusal := None;
    }

    /** Everything before the first deletion: the early returns, and the experiments to delete. */
    method ChooseExperiments(req: Request, pages: seq<seq<string>>, raising: set<nat>)
        returns (refusal: Option<Response>, targets: seq<string>)
      requires Fetchable(Flatten(pages)) && Eligible(Flatten(pages), req.age, Threshold(req))
      ensures refusal.None? <==>
                && env.canDeleteRuns && req.age != Malformed
                && (env.canDeleteExperiments && req.experimentIds.Some? ==>
                      forall e | e in req.experimentIds.value ::
                        && e in experiments && experiments[e].deleted
                        && (req.age.Bound? ==> match experiments[e].lastUpdate
                                               case None => false
                                               case Some(at) => at < req.now - req.age.delta))
      ensures refusal == Some(NotFound) <==>
                && env.canDeleteRuns && req.age != Malformed && env.canDeleteExperiments
                && req.experimentIds.Some? && exists e :: e in req.experimentIds.value && e !in experiments
      ensures refusal.Some? ==> !refusal.value.Done?
      ensures refusal.None? ==>
                && Fetchable(targets) && Eligible(targets, req.age, Threshold(req))
                && targets == TargetExperiments(env, req, Fetch(pages, raising, 0))
    {
      targets := [];
      if !env.canDeleteRuns || req.age.Malformed? { return Some(BadRequest), targets; }
      if env.canDeleteExperiments {
        if req.experimentIds.Some? {
          targets := req.experimentIds.value;
          refusal := CheckExperiments(targets, req.age, Threshold(req));
          return refusal, targets;
        }
        targets := Fetch(pages, raising, 0);
        FetchIsPrefix(pages, raising);
        assert forall e | e in targets :: e in Flatten(pages);
      }
      refusal := None;
    }

    /** The two deletion loops, one after the other. */
    method DeleteTargets(runIds: seq<string>, bounded: bool, oldEnough: seq<string>, targets: seq<string>)
        returns (r: Response)
      requires Lists(env.order, runs)
      modifies this`runs, this`experiments
      ensures r.Done? && NoRepeats(r.deletedRuns) && NoRepeats(r.failedRuns)
      ensures forall id :: id in r.deletedRuns <==> id in runIds && Deletable(env, old(runs), bounded, oldEnough, id)
      ensures forall id :: id in r.failedRuns <==> id in runIds && id !in r.deletedRuns
      ensures Sorted(env, old(runs), old(experiments), targets, r.deletedExperiments, r.failedExperiments)
      ensures experiments == old(experiments) - set e | e in r.deletedExperiments
      ensures Thinned(env, old(runs), runs)
      ensures forall id | id in old(runs) :: id !in runs <==> id in r.deletedRuns || Lost(env, old(runs), targets, id)
    {
      var deletedRuns, failedRuns := DeleteRuns(runIds, bounded, oldEnough);
      assert Thinned(env, old(runs), runs);
      LostAfterwards(env, old(runs), runs, targets);
      forall e ensures Destroyable(env, runs, experiments, e) <==> Destroyable(env, old(runs), experiments, e) {
        ThinnedDestroyable(env, old(runs), runs, experiments, e);
      }
      var deletedExperiments, failedExperiments := DeleteExperiments(targets);
      r := Done(deletedRuns, failedRuns, deletedExperiments, failedExperiments);
    }

    /**
     * The whole endpoint. oldEnough: the trashed runs the store says meet the bound, or nothing
     * when it raised. pages: the store's listing of trashed experiments that meet the bound, some
     * of whose pages may raise.
     */
    method Cleanup(req: Request, oldEnough: seq<string>, pages: seq<seq<string>>, raising: set<nat>)
        returns (r: Response)
      requires Lists(env.order, runs)
      requires forall id | id in oldEnough :: Trashed(runs, id)
      requires Fetchable(Flatten(pages)) && Eligible(Flatten(pages), req.age, Threshold(req))
      modifies this`runs, this`experiments
      // 200 unless the store cannot, the bound is malformed, or a named experiment does not qualify
      ensures r.Done? <==>
                && env.canDeleteRuns && req.age != Malformed
                && (env.canDeleteExperiments && req.experimentIds.Some? ==>
                      forall e | e in req.experimentIds.value ::
                        && e in old(experiments) && old(experiments)[e].deleted
                        && (req.age.Bound? ==> match old(experiments)[e].lastUpdate
                                               case None => false
                                               case Some(at) => at < req.now - req.age.delta))
      ensures r == NotFound <==>
                && env.canDeleteRuns && req.age != Malformed && env.canDeleteExperiments
                && req.experimentIds.Some? && exists e :: e in req.experimentIds.value && e !in old(experiments)
      // a refusal touches nothing
      ensures !r.Done? ==> runs == old(runs) && experiments == old(experiments)
      // the named runs, or the trashed ones the store found, each either deleted or failed
      ensures r.Done? ==>
                var targets := match req.runIds case Some(ids) => ids case None => oldEnough;
                && (forall id :: id in r.deletedRuns <==>
                      && id in targets && id in old(runs) && old(runs)[id].deleted && !env.runFails(id)
                      && (req.age.Bound? ==> id in oldEnough))
                && (forall id :: id in r.failedRuns <==> id in targets && id !in r.deletedRuns)
                && NoRepeats(r.deletedRuns) && NoRepeats(r.failedRuns)
      // the named experiments, or the listed ones, each deleted, once, exactly when nothing about it is
      // refused, or failed
      ensures r.Done? ==>
                var targets := if !env.canDeleteExperiments then []
                               else match req.experimentIds case Some(ids) => ids case None => Fetch(pages, raising, 0);
                && (forall e :: e in r.deletedExperiments <==>
                      && e in targets && e in old(experiments) && !env.experimentFails(e)
                      && forall id | TrashedIn(old(runs), e, id) :: !env.runFails(id))
                && multiset(r.deletedExperiments) + multiset(r.failedExperiments) == multiset(targets)
                && NoRepeats(r.deletedExperiments)
                // a run that is gone was deleted as a run, or got reached in one of these experiments
                && (forall id | id in old(runs) ::
                      id !in runs <==>
                        || id in r.deletedRuns
                        || (old(runs)[id].experiment in targets
                            && Reached(env, old(runs), old(runs)[id].experiment, id)))
      // in one word for the claims about the age bound; what stays is unchanged
      ensures forall id | id in old(runs) ::
                id !in runs <==> r.Done? && HardDeleted(env, old(runs), req, oldEnough, Fetch(pages, raising, 0), id)
      ensures runs.Keys <= old(runs).Keys && forall id | id in runs :: runs[id] == old(runs)[id]
      ensures r.Done? ==> experiments == old(experiments) - set e | e in r.deletedExperiments
      ensures forall e | e in old(experiments) && e !in experiments ::
                && old(experiments)[e].deleted
                && (req.age.Bound? ==> match old(experiments)[e].lastUpdate
                                       case None => false
                                       case Some(at) => at < req.now - req.age.delta)
    {
      var refusal, targetExperiments := ChooseExperiments(req, pages, raising);
      if refusal.Some? { return refusal.value; }
      r := DeleteTargets(TargetRuns(req, oldEnough), req.age.Bound?, oldEnough, targetExperiments);
    }
  }

  // ---- the age bound ----

  function TargetRuns(req: Request, oldEnough: seq<string>): seq<string> {
    if req.runIds.Some? then req.runIds.value else oldEnough
  }

  function TargetExperiments(env: Env, req: Request, listed: seq<string>): seq<string> {
    if !env.canDeleteExperiments then [] else if req.experimentIds.Some? then req.experimentIds.value else listed
  }

  lemma LostAfterwards(env: Env, a: Runs, b: Runs, targets: seq<string>)
    requires Thinned(env, a, b)
    ensures forall id | id in b :: Lost(env, b, targets, id) <==> Lost(env, a, targets, id)
  {
    forall id | id in b ensures Lost(env, b, targets, id) <==> Lost(env, a, targets, id) {
      ThinnedReached(env, a, b, b[id].experiment, id);
    }
  }

  /** Every run a carried-out request removes: a target that meets the bound, or a run lost with an experiment. */
  ghost predicate HardDeleted(env: Env, runs: Runs, req: Request, oldEnough: seq<string>, listed: seq<string>,
                              id: string) {
    || (id in TargetRuns(req, oldEnough) && Deletable(env, runs, req.age.Bound?, oldEnough, id))
    || Lost(env, runs, TargetExperiments(env, req, listed), id)
  }

  /**
   * The bound is meant to spare young runs. It does exactly when every trashed run of a target
   * experiment that is listed before the first one the store refuses is old enough.
   */
  lemma AgeBoundHoldsIff(env: Env, runs: Runs, req: Request, oldEnough: seq<string>, listed: seq<string>)
    requires req.age.Bound?
    ensures (forall id | HardDeleted(env, runs, req, oldEnough, listed, id) :: id in oldEnough)
       <==> (forall e, id | e in TargetExperiments(env, req, listed) && Reached(env, runs, e, id) :: id in oldEnough)
  {
    var targets := TargetExperiments(env, req, listed);
    if forall id | HardDeleted(env, runs, req, oldEnough, listed, id) :: id in oldEnough {
      forall e, id | e in targets && Reached(env, runs, e, id) ensures id in oldEnough {
        assert Lost(env, runs, targets, id);
        assert HardDeleted(env, runs, req, oldEnough, listed, id);
      }
    }
  }

  /**
   * It does not hold: a young trashed run of an old trashed experiment is hard-deleted under a
   * bound of five milliseconds.
   */
  method YoungRunIsDeleted() returns (r: Response, left: Runs)
    ensures r.Done? && "r" !in r.deletedRuns && r.deletedExperiments == ["e"] && left == map[]
  {
    var env := Env(true, true, id => false, e => false, ["r"]);
    var b := new Backend(map["r" := RunInfo("e", true)], map["e" := ExperimentInfo(true, Some(0))], env);
    var req := Request(Bound(5), None, None, 100);
    var pages := [["e"]];
    assert pages[1..] == [] && Flatten(pages) == ["e"] + Flatten([]);
    assert b.Fetchable(["e"]) && b.Eligible(["e"], req.age, Threshold(req));
    assert Fetch(pages, {}, 0) == pages[0] + Fetch(pages, {}, 1) == ["e"];
    assert TrashedIn(b.runs, "e", "r") && forall id | id in b.runs :: id == "r";
    assert Lost(env, b.runs, ["e"], "r");
    assert Destroyable(env, b.runs, b.experiments, "e");
    r := b.Cleanup(req, [], pages, {});
    left := b.runs;
    assert "e" in r.deletedExperiments && |r.deletedExperiments| <= |multiset(["e"])|;
  }
}
