/**
 * Experiment ownership (routers/quota.py, utils/quota.py, hooks/after_request.py): the owner is
 * the user holding MANAGE, and a transfer is three ordered permission updates.
 */
module Ownership {
  import opened Common
  import opened Permissions
  import opened PermissionTables

  /** The users with a MANAGE row on an experiment. */
  function Managers(t: Table, e: string): set<string> {
    set s | s in SubjectsOf(t, e) && t[RowKey(e, s)] == MANAGE
  }

  lemma ManagersAre(t: Table, e: string, u: string)
    ensures u in Managers(t, e) <==> RowKey(e, u) in t && t[RowKey(e, u)] == MANAGE
  {
    assert u in SubjectsOf(t, e) <==> RowKey(e, u) in t;
  }

  /** get_experiment_owner returns some manager, and None only when there is none. */
  predicate IsOwner(t: Table, e: string, owner: Option<string>) {
    match owner
    case None => Managers(t, e) == {}
    case Some(u) => u in Managers(t, e)
  }

  datatype Reply = Forbidden | NoChange | UnknownUser | Transferred

  function TransferReply(owner: Option<string>, requester: string, isAdmin: bool, newOwner: string,
                         known: bool): Reply {
    if !isAdmin && owner != Some(requester) then Forbidden
    else if owner == Some(newOwner) then NoChange
    else if !known then UnknownUser
    else Transferred
  }

  function TransferRows(t: Table, e: string, owner: Option<string>, newOwner: string): Table {
    (if owner.Some? then t[RowKey(e, owner.value) := EDIT] else t)[RowKey(e, newOwner) := MANAGE]
  }

  /** Downgrade the old owner, then upgrade the new one, creating the row when updating it fails. */
  method TransferOwnership(table: SubjectTable, e: string, owner: Option<string>, requester: string, isAdmin: bool,
                           newOwner: string, known: bool)
      returns (r: Reply)
    requires IsOwner(table.rows, e, owner)
    modifies table
    ensures r == TransferReply(owner, requester, isAdmin, newOwner, known)
    // who may transfer, and what is refused, in order
    ensures !isAdmin && requester !in Managers(old(table.rows), e) ==> r == Forbidden
    ensures r == Forbidden <==> !isAdmin && owner != Some(requester)
    ensures r == NoChange <==> (isAdmin || owner == Some(requester)) && owner == Some(newOwner)
    ensures r == UnknownUser <==> (isAdmin || owner == Some(requester)) && owner != Some(newOwner) && !known
    ensures r != Transferred ==> table.rows == old(table.rows)
    ensures r == Transferred ==>
              && RowKey(e, newOwner) in table.rows && table.rows[RowKey(e, newOwner)] == MANAGE
              && (owner.Some? ==>
                    RowKey(e, owner.value) in table.rows && table.rows[RowKey(e, owner.value)] == EDIT)
    ensures table.rows
         == if r == Transferred then TransferRows(old(table.rows), e, owner, newOwner) else old(table.rows)
  {
    if !isAdmin && owner != Some(requester) { return Forbidden; }
    if owner == Some(newOwner) { return NoChange; }
    if !known { return UnknownUser; }
    if owner.Some? {
      var _ := table.Update(e, owner.value, "EDIT");
    }
    var updated := table.Update(e, newOwner, "MANAGE");
    if updated.Err? {
      var _ := table.Grant(e, newOwner, known, "MANAGE");
    }
    r := Transferred;
  }

  /**
   * A transfer swaps exactly the one manager it found for the new one, leaves that one EDIT, and
   * touches no other row.
   */
  lemma TransferSwaps(t: Table, e: string, owner: Option<string>, newOwner: string, k: RowKey)
    requires IsOwner(t, e, owner) && owner != Some(newOwner)
    ensures var t' := TransferRows(t, e, owner, newOwner);
            && Managers(t', e) == (if owner.Some? then Managers(t, e) - {owner.value} else Managers(t, e)) + {newOwner}
            && (owner.Some? ==> RowKey(e, owner.value) in t' && t'[RowKey(e, owner.value)] == EDIT)
            && (k != RowKey(e, newOwner) && (owner.Some? ==> k != RowKey(e, owner.value)) ==>
                  (k in t' <==> k in t) && (k in t ==> t'[k] == t[k]))
  {
    var t' := TransferRows(t, e, owner, newOwner);
    forall s ensures s in Managers(t', e) <==> s == newOwner || (s in Managers(t, e) && owner != Some(s)) {
      assert s in SubjectsOf(t', e) <==> RowKey(e, s) in t';
      assert s in SubjectsOf(t, e) <==> RowKey(e, s) in t;
    }
  }

  /**
   * Who may transfer, read off the rows: whoever does not hold MANAGE on the experiment and is no
   * administrator is refused, and where one user alone holds it, everyone else is.
   */
  lemma OnlyManagersTransfer(t: Table, e: string, owner: Option<string>, requester: string, newOwner: string,
                             known: bool)
    requires IsOwner(t, e, owner)
    ensures !(RowKey(e, requester) in t && t[RowKey(e, requester)] == MANAGE) ==>
              TransferReply(owner, requester, false, newOwner, known) == Forbidden
    ensures forall m | Managers(t, e) == {m} ::
              && (TransferReply(owner, requester, false, newOwner, known) == Forbidden <==> requester != m)
              && (requester == m ==>
                    TransferReply(owner, requester, false, newOwner, known)
                    == (if newOwner == m then NoChange else if known then Transferred else UnknownUser))
    ensures TransferReply(owner, requester, true, newOwner, known)
         == if owner == Some(newOwner) then NoChange else if known then Transferred else UnknownUser
  {
    ManagersAre(t, e, requester);
    if owner.Some? { ManagersAre(t, e, owner.value); }
    forall m | Managers(t, e) == {m} ensures owner == Some(m) {
      assert m in Managers(t, e);
    }
  }

  ghost predicate OneManager(t: Table, e: string) { exists u :: Managers(t, e) == {u} }

  /** After a transfer there is exactly one manager if and only if nobody else was one besides the two involved. */
  lemma OneManagerIff(t: Table, e: string, owner: Option<string>, newOwner: string)
    requires IsOwner(t, e, owner) && owner != Some(newOwner)
    ensures OneManager(TransferRows(t, e, owner, newOwner), e)
       <==> forall u | u in Managers(t, e) :: Some(u) == owner || u == newOwner
  {
    TransferSwaps(t, e, owner, newOwner, RowKey(e, newOwner));
    var after := Managers(TransferRows(t, e, owner, newOwner), e);
    assert newOwner in after;
    if forall u | u in Managers(t, e) :: Some(u) == owner || u == newOwner {
      assert after == {newOwner};
    }
    if OneManager(TransferRows(t, e, owner, newOwner), e) {
      assert forall u | u in after :: u == newOwner;
      assert forall u | u in Managers(t, e) && Some(u) != owner :: u in after;
    }
  }

  // ---- runs ----

  datatype State = State(live: set<string>, rows: Table)

  /** Set and Drop: the permission API, at any level and on any user. */
  datatype Request =
    | Create(experiment: string, creator: string)
    | Transfer(experiment: string, requester: string, isAdmin: bool, newOwner: string, known: bool)
    | Set(experiment: string, user: string, level: Level)
    | Drop(experiment: string, user: string)

  ghost function OwnerOf(t: Table, e: string): (owner: Option<string>)
    ensures IsOwner(t, e, owner)
  {
    if Managers(t, e) == {} then None else var u :| u in Managers(t, e); Some(u)
  }

  ghost function Step(s: State, r: Request): State {
    match r
    case Create(e, creator) =>
      if e in s.live then s else State(s.live + {e}, s.rows[RowKey(e, creator) := MANAGE])
    case Transfer(e, requester, isAdmin, newOwner, known) =>
      var owner := OwnerOf(s.rows, e);
      if e in s.live && TransferReply(owner, requester, isAdmin, newOwner, known) == Transferred
      then s.(rows := TransferRows(s.rows, e, owner, newOwner)) else s
    case Set(e, user, level) =>
      if e in s.live then s.(rows := s.rows[RowKey(e, user) := level]) else s
    case Drop(e, user) => s.(rows := s.rows - {RowKey(e, user)})
  }

  ghost function Run(s: State, rs: seq<Request>): State
    decreases |rs|
  {
    if rs == [] then s else Run(Step(s, rs[0]), rs[1..])
  }

  ghost predicate Inv(s: State) {
    && (forall e | e in s.live :: OneManager(s.rows, e))
    && (forall k | k in s.rows :: k.resource in s.live)
  }

  /** What each request other than a transfer does to the rows. */
  lemma RequestTakesEffect(s: State, r: Request, k: RowKey)
    requires !r.Transfer?
    ensures var s' := Step(s, r);
            match r
            case Create(e, creator) =>
              if e in s.live then s' == s
              else s'.live == s.live + {e}
                   && if k == RowKey(e, creator) then k in s'.rows && s'.rows[k] == MANAGE else SameRow(s, s', k)
            case Set(e, user, level) =>
              s'.live == s.live
              && if e in s.live && k == RowKey(e, user) then k in s'.rows && s'.rows[k] == level else SameRow(s, s', k)
            case Drop(e, user) =>
              s'.live == s.live && if k == RowKey(e, user) then k !in s'.rows else SameRow(s, s', k)
  {
  }

  ghost predicate SameRow(s: State, s': State, k: RowKey) {
    (k in s'.rows <==> k in s.rows) && (k in s.rows ==> s'.rows[k] == s.rows[k])
  }

  /**
   * At whatever point of a run: a transfer that changes anything was requested by an administrator
   * or by a manager of that moment.
   */
  lemma ChangedByManager(s: State, rs: seq<Request>, i: nat)
    requires i < |rs| && rs[i].Transfer? && !rs[i].isAdmin
    requires var here := Run(s, rs[..i]); Step(here, rs[i]) != here
    ensures var here, key := Run(s, rs[..i]), RowKey(rs[i].experiment, rs[i].requester);
            key in here.rows && here.rows[key] == MANAGE
  {
    var here := Run(s, rs[..i]);
    OnlyManagersTransfer(here.rows, rs[i].experiment, OwnerOf(here.rows, rs[i].experiment), rs[i].requester,
                         rs[i].newOwner, rs[i].known);
  }

  /** And the other way round: the one manager can hand a live experiment over to any known user. */
  lemma ManagerCanTransfer(s: State, e: string, m: string, newOwner: string)
    requires Inv(s) && e in s.live && Managers(s.rows, e) == {m} && newOwner != m
    ensures Managers(Step(s, Transfer(e, m, false, newOwner, true)).rows, e) == {newOwner}
  {
    var owner := OwnerOf(s.rows, e);
    assert m in Managers(s.rows, e);
    OnlyManagersTransfer(s.rows, e, owner, m, newOwner, true);
    TransferSwaps(s.rows, e, owner, newOwner, RowKey(e, m));
  }

  /** Managers depend on the rows of the experiment alone. */
  lemma SameManagers(t: Table, t': Table, e: string)
    requires forall s ::
               RowKey(e, s) in t && t[RowKey(e, s)] == MANAGE <==> RowKey(e, s) in t' && t'[RowKey(e, s)] == MANAGE
    ensures Managers(t, e) == Managers(t', e)
  {
    forall s ensures s in Managers(t, e) <==> s in Managers(t', e) {
      assert s in SubjectsOf(t, e) <==> RowKey(e, s) in t;
      assert s in SubjectsOf(t', e) <==> RowKey(e, s) in t';
    }
  }

  lemma OthersKeepManagers(s: State, r: Request, e: string)
    requires e != r.experiment
    ensures Managers(Step(s, r).rows, e) == Managers(s.rows, e)
  {
    SameManagers(s.rows, Step(s, r).rows, e);
  }

  lemma CreatorManages(s: State, r: Request)
    requires Inv(s) && r.Create? && r.experiment !in s.live
    ensures Managers(Step(s, r).rows, r.experiment) == {r.creator}
  {
    var t := Step(s, r).rows;
    forall u ensures u in Managers(t, r.experiment) <==> u == r.creator {
      assert u in SubjectsOf(t, r.experiment) <==> RowKey(r.experiment, u) in t;
      assert RowKey(r.experiment, u) !in s.rows;
    }
  }

  /** A row set through the API makes its user a manager or not. */
  lemma SetManagers(t: Table, e: string, user: string, level: Level)
    ensures Managers(t[RowKey(e, user) := level], e)
         == if level == MANAGE then Managers(t, e) + {user} else Managers(t, e) - {user}
  {
    var t' := t[RowKey(e, user) := level];
    forall u ensures u in Managers(t', e) <==> if u == user then level == MANAGE else u in Managers(t, e) {
      assert u in SubjectsOf(t', e) <==> RowKey(e, u) in t';
      assert u in SubjectsOf(t, e) <==> RowKey(e, u) in t;
    }
  }

  lemma DropManagers(t: Table, e: string, user: string)
    ensures Managers(t - {RowKey(e, user)}, e) == Managers(t, e) - {user}
  {
    var t' := t - {RowKey(e, user)};
    forall u ensures u in Managers(t', e) <==> u != user && u in Managers(t, e) {
      assert u in SubjectsOf(t', e) <==> RowKey(e, u) in t';
      assert u in SubjectsOf(t, e) <==> RowKey(e, u) in t;
    }
  }

  /**
   * Grants and revocations keep exactly one manager if and only if they neither make a second one
   * nor touch the one.
   */
  lemma SetKeepsOneManagerIff(t: Table, e: string, user: string, level: Level)
    requires OneManager(t, e)
    ensures OneManager(t[RowKey(e, user) := level], e) <==> (level == MANAGE <==> user in Managers(t, e))
    ensures OneManager(t - {RowKey(e, user)}, e) <==> user !in Managers(t, e)
  {
    var m :| Managers(t, e) == {m};
    SetManagers(t, e, user, level);
    DropManagers(t, e, user);
    assert {m} + {user} == if user == m then {m} else {m, user};
    assert {m} - {user} == if user == m then {} else {m};
    assert user != m ==> user in {m, user} && m in {m, user};
  }

  /** The request leaves the managers of a live experiment alone, unless it is a transfer. */
  ghost predicate LeavesManager(s: State, r: Request) {
    match r
    case Set(e, user, level) => e in s.live ==> (level == MANAGE <==> user in Managers(s.rows, e))
    case Drop(e, user) => user !in Managers(s.rows, e)
    case _ => true
  }

  lemma DeadHasNoManagers(s: State, e: string)
    requires Inv(s) && e !in s.live
    ensures Managers(s.rows, e) == {}
  {
    forall u ensures u !in Managers(s.rows, e) {
      assert u in SubjectsOf(s.rows, e) <==> RowKey(e, u) in s.rows;
    }
  }

  /** Exactly when a request leaves every experiment with one manager. */
  lemma InvIffLeavesManager(s: State, r: Request)
    requires Inv(s)
    ensures Inv(Step(s, r)) <==> LeavesManager(s, r)
  {
    if LeavesManager(s, r) { StepKeepsInv(s, r); }
    if Inv(Step(s, r)) && (r.Set? || r.Drop?) {
      if r.experiment in s.live {
        assert OneManager(Step(s, r).rows, r.experiment);
        SetKeepsOneManagerIff(s.rows, r.experiment, r.user, if r.Set? then r.level else READ);
      } else {
        DeadHasNoManagers(s, r.experiment);
      }
    }
  }

  lemma StepKeepsInv(s: State, r: Request)
    requires Inv(s) && LeavesManager(s, r)
    ensures Inv(Step(s, r))
  {
    var s' := Step(s, r);
    forall e | e in s'.live ensures OneManager(s'.rows, e) {
      if e != r.experiment {
        OthersKeepManagers(s, r, e);
      } else if r.Create? && e !in s.live {
        CreatorManages(s, r);
      } else if r.Transfer? && s' != s {
        OneManagerIff(s.rows, e, OwnerOf(s.rows, e), r.newOwner);
      } else if r.Set? || r.Drop? {
        SetKeepsOneManagerIff(s.rows, e, r.user, if r.Set? then r.level else READ);
      }
    }
    OnlyLiveRows(s, r);
  }

  lemma OnlyLiveRows(s: State, r: Request)
    requires Inv(s)
    ensures forall k | k in Step(s, r).rows :: k.resource in Step(s, r).live
  {
  }

  ghost predicate LeavingRun(s: State, rs: seq<Request>)
    decreases |rs|
  {
    rs == [] || (LeavesManager(s, rs[0]) && LeavingRun(Step(s, rs[0]), rs[1..]))
  }

  /** Over every run of creations, transfers and such grants and revocations each experiment has exactly one manager. */
  lemma {:induction false} RunKeepsOneManager(s: State, rs: seq<Request>)
    requires Inv(s) && LeavingRun(s, rs)
    ensures Inv(Run(s, rs))
    decreases |rs|
  {
    if rs != [] {
      StepKeepsInv(s, rs[0]);
      RunKeepsOneManager(Step(s, rs[0]), rs[1..]);
    }
  }

  /** A second MANAGE grant is carried out, and a transfer then leaves the other manager in place. */
  lemma SecondManagerStays()
    ensures var t := map[RowKey("7", "ann") := MANAGE, RowKey("7", "bob") := MANAGE];
            && Step(Step(State({}, map[]), Create("7", "ann")), Set("7", "bob", MANAGE)) == State({"7"}, t)
            && Managers(TransferRows(t, "7", Some("ann"), "eve"), "7") == {"bob", "eve"}
  {
    var t0: Table := map[];
    var t := map[RowKey("7", "ann") := MANAGE, RowKey("7", "bob") := MANAGE];
    assert Managers(t0, "7") == {};
    SetManagers(t0, "7", "ann", MANAGE);
    SetManagers(map[RowKey("7", "ann") := MANAGE], "7", "bob", MANAGE);
    assert t == map[RowKey("7", "ann") := MANAGE][RowKey("7", "bob") := MANAGE];
    TransferSwaps(t, "7", Some("ann"), "eve", RowKey("7", "eve"));
  }
}
