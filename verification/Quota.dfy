/**
 * The storage-quota ledger (repository/quota.py), the upload check that charges it
 * (hooks/before_request.py) and the reconciliation that resets it (utils/quota.py).
 */
module Quota {
  import opened Common

  datatype QuotaRow = QuotaRow(quota: Option<int>, used: int, blocked: bool, softCap: Option<real>,
                               email: Option<string>)

  /** Existing users and at most one row for each. */
  datatype State = State(users: set<string>, rows: map<string, QuotaRow>)

  datatype Config = Config(defaultQuota: Option<int>)

  /**
   * Upload: an artifact upload charged to the experiment's owner, if it has one; authorised says
   * that the permission checks before the quota check let it through. Reconcile: the sizes of the
   * user's artifacts were measured.
   */
  datatype Event =
    | SetQuota(user: string, quota: Option<int>, softCap: Option<real>)
    | SetEmail(user: string, email: Option<string>)
    | DeleteQuota(user: string)
    | UpdateUsed(user: string, used: nat)
    | SetBlocked(user: string, blocked: bool)
    | Upload(owner: Option<string>, length: Option<int>, isAdmin: bool, authorised: bool)
    | Reconcile(user: string, measured: nat)

  function NewRow(quota: Option<int>, softCap: Option<real>, email: Option<string>): QuotaRow {
    QuotaRow(quota, 0, false, softCap, email)
  }

  /** effective_quota_bytes: the row's own limit, else the configured default; None is unlimited. */
  function Limit(cfg: Config, s: State, user: string): Option<int> {
    if user in s.rows && s.rows[user].quota.Some? then s.rows[user].quota else cfg.defaultQuota
  }

  function Used(s: State, user: string): int { if user in s.rows then s.rows[user].used else 0 }

  /** enforce_quota lets the operation through. */
  predicate Admits(cfg: Config, s: State, user: string) {
    Limit(cfg, s, user).None? || Used(s, user) < Limit(cfg, s, user).value
  }

  /** What an event does to the books. */
  datatype Effect = Reset(user: string, value: int) | Charge(user: string, bytes: int) | Close(user: string) | Nothing

  function EffectOf(cfg: Config, s: State, e: Event): Effect {
    match e
    case SetQuota(user, _, _) => if user in s.users && user !in s.rows then Reset(user, 0) else Nothing
    case SetEmail(user, _) => if user in s.users && user !in s.rows then Reset(user, 0) else Nothing
    case DeleteQuota(user) => if user in s.users then Close(user) else Nothing
    case UpdateUsed(user, used) => if user in s.users && user in s.rows then Reset(user, used) else Nothing
    case SetBlocked(_, _) => Nothing
    case Upload(owner, length, isAdmin, authorised) =>
      if !isAdmin && authorised && owner.Some? && Admits(cfg, s, owner.value) && length.Some? && length.value > 0
         && owner.value in s.users && owner.value in s.rows
      then Charge(owner.value, length.value) else Nothing
    case Reconcile(user, measured) =>
      if user in s.users && (user !in s.rows || Limit(cfg, s, user).Some?) then Reset(user, measured) else Nothing
  }

  /**
   * The flag a reconciliation leaves: a row made on the way keeps its initial one, and a zero limit
   * ends in a division error before the flag is looked at.
   */
  function BlockedAfter(cfg: Config, s: State, user: string, measured: nat): bool
    requires user in s.rows
  {
    var limit := Limit(cfg, s, user);
    if limit.None? then false else if limit.value == 0 then s.rows[user].blocked else measured >= limit.value
  }

  function Step(cfg: Config, s: State, e: Event): State {
    match e
    case SetQuota(user, quota, softCap) =>
      if user !in s.users then s
      else if user !in s.rows then s.(rows := s.rows[user := NewRow(quota, softCap, None)])
      else
        var cap := if softCap.Some? then softCap else s.rows[user].softCap;
        s.(rows := s.rows[user := s.rows[user].(quota := quota, softCap := cap)])
    case SetEmail(user, email) =>
      if user !in s.users then s
      else if user !in s.rows then s.(rows := s.rows[user := NewRow(None, None, email)])
      else s.(rows := s.rows[user := s.rows[user].(email := email)])
    case DeleteQuota(user) => if user !in s.users then s else s.(rows := s.rows - {user})
    case UpdateUsed(user, used) =>
      if user !in s.users || user !in s.rows then s else s.(rows := s.rows[user := s.rows[user].(used := used)])
    case SetBlocked(user, blocked) =>
      if user !in s.users || user !in s.rows then s else s.(rows := s.rows[user := s.rows[user].(blocked := blocked)])
    case Upload(_, _, _, _) =>
      var f := EffectOf(cfg, s, e);
      if f.Charge? then s.(rows := s.rows[f.user := s.rows[f.user].(used := s.rows[f.user].used + f.bytes)]) else s
    case Reconcile(user, measured) =>
      if user !in s.users then s
      else if user !in s.rows then s.(rows := s.rows[user := NewRow(None, None, None).(used := measured)])
      else if Limit(cfg, s, user).None? then s.(rows := s.rows[user := s.rows[user].(blocked := false)])
      else s.(rows := s.rows[user := s.rows[user].(used := measured, blocked := BlockedAfter(cfg, s, user, measured))])
  }

  ghost predicate Valid(s: State) {
    && (forall u | u in s.rows :: u in s.users && s.rows[u].used >= 0)
  }

  /** Only this user's row is new or changed. */
  ghost predicate OnlyRow(before: map<string, QuotaRow>, after: map<string, QuotaRow>, user: string) {
    && after.Keys + {user} == before.Keys + {user}
    && forall u | u in before && u != user :: after[u] == before[u]
  }

  class Ledger {
    const cfg: Config
    const users: set<string>
    var rows: map<string, QuotaRow>

    function View(): State
      reads this
    {
      State(users, rows)
    }

    constructor (cfg: Config, users: set<string>)
      ensures this.cfg == cfg && View() == State(users, map[])
    {
      this.cfg, this.users, rows := cfg, users, map[];
    }

    method SetUserQuota(user: string, quota: Option<int>, softCap: Option<real>) returns (r: Result<()>)
      modifies this
      ensures r.Ok? <==> user in users
      ensures user !in users ==> rows == old(rows)
      ensures user in users ==>
                && OnlyRow(old(rows), rows, user) && user in rows && rows[user].quota == quota
                && (softCap.Some? ==> rows[user].softCap == softCap)
                && rows[user] == (if user in old(rows) then old(rows)[user] else QuotaRow(None, 0, false, None, None))
                                 .(quota := quota, softCap := rows[user].softCap)
                && (softCap == None ==>
                      rows[user].softCap == if user in old(rows) then old(rows)[user].softCap else None)
      ensures View() == Step(cfg, old(View()), SetQuota(user, quota, softCap))
    {
      if user !in users { return Err(DoesNotExist); }
      if user !in rows {
        rows := rows[user := NewRow(quota, softCap, None)];
      } else {
        var row := rows[user].(quota := quota);
        if softCap.Some? { row := row.(softCap := softCap); }
        rows := rows[user := row];
      }
      r := Ok(());
    }

    method UpdateEmail(user: string, email: Option<string>)
      modifies this
      ensures rows == if user !in users then old(rows)
                      else old(rows)[user := (if user in old(rows) then old(rows)[user]
                                              else QuotaRow(None, 0, false, None, None)).(email := email)]
      ensures View() == Step(cfg, old(View()), SetEmail(user, email))
    {
      if user !in users { return; }
      rows := rows[user := if user !in rows then NewRow(None, None, email) else rows[user].(email := email)];
    }

    method DeleteUserQuota(user: string)
      modifies this
      ensures rows == if user in users then old(rows) - {user} else old(rows)
      ensures View() == Step(cfg, old(View()), DeleteQuota(user))
    {
      if user !in users { return; }
      rows := rows - {user};
    }

    method UpdateUsedBytes(user: string, used: nat)
      modifies this
      ensures rows.Keys == old(rows).Keys && OnlyRow(old(rows), rows, user)
      ensures user in rows ==> rows[user] == if user in users then old(rows)[user].(used := used) else old(rows)[user]
      ensures View() == Step(cfg, old(View()), UpdateUsed(user, used))
    {
      if user !in users || user !in rows { return; }
      rows := rows[user := rows[user].(used := used)];
    }

    /** The amount may be negative; the ledger is floored at zero. */
    method IncrementUsedBytes(user: string, delta: int)
      modifies this
      // nobody else's row, no other field, and no row where there was none
      ensures rows.Keys == old(rows).Keys
      ensures forall u | u in rows && (u != user || u !in users) :: rows[u] == old(rows)[u]
      ensures user in rows ==> rows[user] == old(rows)[user].(used := rows[user].used)
      // the least usage that is not negative and covers the amount
      ensures user in users && user in rows ==>
                var used, sum := rows[user].used, old(rows)[user].used + delta;
                0 <= used && sum <= used && (used == 0 || used == sum)
      ensures Valid(old(View())) ==> Valid(View())
    {
      if user !in users || user !in rows { return; }
      var sum := rows[user].used + delta;
      rows := rows[user := rows[user].(used := if sum < 0 then 0 else sum)];
    }

    method SetHardBlocked(user: string, blocked: bool)
      modifies this
      ensures rows.Keys == old(rows).Keys && OnlyRow(old(rows), rows, user)
      ensures user in rows ==>
                rows[user] == if user in users then old(rows)[user].(blocked := blocked) else old(rows)[user]
      ensures View() == Step(cfg, old(View()), SetBlocked(user, blocked))
    {
      if user !in users || user !in rows { return; }
      rows := rows[user := rows[user].(blocked := blocked)];
    }

    /** The upload branch of _check_quota: refuse when the owner is over the limit, else charge the announced length. */
    method CheckUpload(owner: Option<string>, length: Option<int>, isAdmin: bool, authorised: bool)
        returns (refused: bool)
      requires Valid(View())
      modifies this
      ensures View() == Step(cfg, old(View()), Upload(owner, length, isAdmin, authorised))
      // refused at the row's own limit, or at the default where it has none
      ensures refused <==>
                && !isAdmin && authorised && owner.Some?
                && var row := if owner.value in old(rows) then Some(old(rows)[owner.value]) else None;
                   var used := if row.Some? then row.value.used else 0;
                   if row.Some? && row.value.quota.Some? then used >= row.value.quota.value
                   else cfg.defaultQuota.Some? && used >= cfg.defaultQuota.value
      // charged with the announced length when let through
      ensures rows == if && !refused && !isAdmin && authorised && length.Some? && length.value > 0
                         && owner.Some? && owner.value in users && owner.value in old(rows)
                      then old(rows)[owner.value :=
                             old(rows)[owner.value].(used := old(rows)[owner.value].used + length.value)]
                      else old(rows)
    {
      refused := false;
      if isAdmin || !authorised { return; }
      if owner.None? { return; }
      if !Admits(cfg, View(), owner.value) { return true; }
      if length.Some? && length.value > 0 {
        IncrementUsedBytes(owner.value, length.value);
      }
    }

    /** reconcile_user_quota, notifications aside. */
    method ReconcileUser(user: string, measured: nat) returns (raised: bool)
      requires user in users
      modifies this
      ensures View() == Step(cfg, old(View()), Reconcile(user, measured))
      ensures raised <==> user in old(rows) && Limit(cfg, old(View()), user) == Some(0)
      ensures OnlyRow(old(rows), rows, user) && user in rows
      ensures user !in old(rows) ==> rows[user] == QuotaRow(None, measured, false, None, None)
      ensures user in old(rows) ==>
                var row := old(rows)[user];
                match if row.quota.Some? then row.quota else cfg.defaultQuota
                case None => !raised && rows[user] == row.(blocked := false)
                case Some(limit) =>
                  && (raised <==> limit == 0)
                  && rows[user] == row.(used := measured, blocked := if raised then row.blocked else measured >= limit)
    {
      raised := false;
      if user !in rows {
        var _ := SetUserQuota(user, None, None);
        UpdateUsedBytes(user, measured);
        return;
      }
      var limit := Limit(cfg, View(), user);
      if limit.None? {
        if rows[user].blocked { SetHardBlocked(user, false); }
        assert rows == old(rows)[user := old(rows)[user].(blocked := false)];
        return;
      }
      var before := rows[user];
      UpdateUsedBytes(user, measured);
      if limit.value == 0 { return true; }
      if measured >= limit.value {
        if !before.blocked { SetHardBlocked(user, true); }
      } else {
        if before.blocked { SetHardBlocked(user, false); }
      }
    }
  }

  /** The row's flag says whether its usage has reached the limit. */
  ghost predicate FlagIsRight(cfg: Config, s: State, user: string) {
    && user in s.rows
    && (s.rows[user].blocked <==> Limit(cfg, s, user).Some? && s.rows[user].used >= Limit(cfg, s, user).value)
  }

  /**
   * A reconciliation meant to set the flag straight does so exactly when there is no limit, or
   * the row was there before and its limit is not zero (or the flag was set already), or the row
   * is new and below the limit.
   */
  lemma FlagIsRightIff(cfg: Config, s: State, user: string, measured: nat)
    requires Valid(s) && user in s.users
    ensures FlagIsRight(cfg, Step(cfg, s, Reconcile(user, measured)), user)
       <==> match Limit(cfg, s, user)
            case None => true
            case Some(limit) => if user in s.rows then limit != 0 || s.rows[user].blocked else measured < limit
  {
  }

  /** A reconciliation that makes the row itself leaves the flag unset though the usage is at the default limit. */
  lemma NewRowKeepsFlagUnset()
    ensures var cfg, s := Config(Some(10)), State({"ann"}, map[]);
            var s' := Step(cfg, s, Reconcile("ann", 10));
            s'.rows["ann"].used == 10 && !s'.rows["ann"].blocked && !FlagIsRight(cfg, s', "ann")
  {
    var cfg, s := Config(Some(10)), State({"ann"}, map[]);
    var s' := Step(cfg, s, Reconcile("ann", 10));
    assert s'.rows["ann"] == NewRow(None, None, None).(used := 10);
    assert Limit(cfg, s', "ann") == Some(10);
  }

  /** With a limit of zero the flag stays unset as well. */
  lemma ZeroLimitKeepsFlagUnset(cfg: Config)
    ensures var s := State({"ann"}, map["ann" := NewRow(Some(0), None, None)]);
            var s' := Step(cfg, s, Reconcile("ann", 10));
            s'.rows["ann"].used == 10 && !s'.rows["ann"].blocked && !FlagIsRight(cfg, s', "ann")
  {
    var s := State({"ann"}, map["ann" := NewRow(Some(0), None, None)]);
    var s' := Step(cfg, s, Reconcile("ann", 10));
    assert s'.rows["ann"] == NewRow(Some(0), None, None).(used := 10);
    assert Limit(cfg, s', "ann") == Some(0);
  }

  // ---- the ledger over whole histories ----

  function After(cfg: Config, users: set<string>, es: seq<Event>): State {
    if es == [] then State(users, map[]) else Step(cfg, After(cfg, users, es[..|es| - 1]), es[|es| - 1])
  }

  function EffectAt(cfg: Config, users: set<string>, es: seq<Event>, i: nat): Effect
    requires i < |es|
  {
    EffectOf(cfg, After(cfg, users, es[..i]), es[i])
  }

  /** Content lengths charged to a user at positions from i up to n. */
  function Charged(cfg: Config, users: set<string>, es: seq<Event>, user: string, i: nat, n: nat): int
    requires i <= n <= |es|
    decreases n
  {
    if i == n then 0
    else
      var f := EffectAt(cfg, users, es, n - 1);
      Charged(cfg, users, es, user, i, n - 1) + if f.Charge? && f.user == user then f.bytes else 0
  }

  /** The books and the effect of one event, for a given user. */
  lemma StepEffect(cfg: Config, s: State, e: Event, user: string)
    requires Valid(s)
    ensures var s', f := Step(cfg, s, e), EffectOf(cfg, s, e);
            && Valid(s')
            && (f.Reset? && f.user == user ==> user in s'.rows && s'.rows[user].used == f.value)
            && (f.Close? && f.user == user ==> user !in s'.rows)
            && (f.Charge? && f.user == user ==>
                  user in s.rows && user in s'.rows && s'.rows[user].used == s.rows[user].used + f.bytes)
            && (f == Nothing || f.user != user ==>
                  (user in s'.rows <==> user in s.rows) && (user in s.rows ==> s'.rows[user].used == s.rows[user].used))
            && (f != Nothing && f.user != user ==> (user in s.rows ==> s'.rows[user] == s.rows[user]))
  {
  }

  lemma {:induction false} AfterValid(cfg: Config, users: set<string>, es: seq<Event>)
    ensures Valid(After(cfg, users, es)) && After(cfg, users, es).users == users
  {
    if es != [] {
      AfterValid(cfg, users, es[..|es| - 1]);
      StepEffect(cfg, After(cfg, users, es[..|es| - 1]), es[|es| - 1], "");
    }
  }

  /**
   * While a user's row exists, used bytes are the value of the last reset (the row's creation or
   * a reconciliation) plus every content length charged since, and never negative.
   */
  lemma {:induction false} LedgerExact(cfg: Config, users: set<string>, es: seq<Event>, user: string, n: nat)
      returns (i: nat)
    requires n <= |es| && user in After(cfg, users, es[..n]).rows
    ensures i < n && EffectAt(cfg, users, es, i).Reset? && EffectAt(cfg, users, es, i).user == user
    ensures forall k | i < k < n :: var f := EffectAt(cfg, users, es, k); f == Nothing || f.Charge? || f.user != user
    ensures After(cfg, users, es[..n]).rows[user].used
         == EffectAt(cfg, users, es, i).value + Charged(cfg, users, es, user, i + 1, n) >= 0
    decreases n
  {
    assert es[..n][..n - 1] == es[..n - 1];
    var s, e := After(cfg, users, es[..n - 1]), es[n - 1];
    AfterValid(cfg, users, es[..n - 1]);
    StepEffect(cfg, s, e, user);
    var f := EffectAt(cfg, users, es, n - 1);
    if f.Reset? && f.user == user {
      i := n - 1;
    } else {
      i := LedgerExact(cfg, users, es, user, n - 1);
    }
  }

  /** An admitted upload was below the limit, so usage overshoots by less than that one upload. */
  lemma ChargeBelowLimit(cfg: Config, s: State, e: Event)
    requires EffectOf(cfg, s, e).Charge?
    ensures var f := EffectOf(cfg, s, e);
            var limit := Limit(cfg, s, f.user);
            limit.Some? ==> Step(cfg, s, e).rows[f.user].used < limit.value + f.bytes
  {
  }

  /**
   * At any moment the last entry in a user's books bounds the usage: a reset is the usage, and
   * after a charge the usage exceeds the limit of that time by less than what was charged.
   */
  lemma {:induction false} OvershootIsOneUpload(cfg: Config, users: set<string>, es: seq<Event>, user: string, n: nat)
      returns (k: nat)
    requires n <= |es| && user in After(cfg, users, es[..n]).rows
    ensures k < n && EffectAt(cfg, users, es, k) != Nothing && EffectAt(cfg, users, es, k).user == user
    ensures forall j | k < j < n :: var f := EffectAt(cfg, users, es, j); f == Nothing || f.user != user
    ensures var f, used := EffectAt(cfg, users, es, k), After(cfg, users, es[..n]).rows[user].used;
            var limit := Limit(cfg, After(cfg, users, es[..k]), user);
            && !f.Close?
            && (f.Reset? ==> used == f.value)
            && (f.Charge? && limit.Some? ==> used < limit.value + f.bytes)
    decreases n
  {
    assert es[..n][..n - 1] == es[..n - 1];
    var s, e := After(cfg, users, es[..n - 1]), es[n - 1];
    AfterValid(cfg, users, es[..n - 1]);
    StepEffect(cfg, s, e, user);
    var f := EffectAt(cfg, users, es, n - 1);
    if f != Nothing && f.user == user {
      k := n - 1;
      if f.Charge? { ChargeBelowLimit(cfg, s, e); }
    } else {
      k := OvershootIsOneUpload(cfg, users, es, user, n - 1);
    }
  }

  /** So while a limit stands since the last reset, usage is the reset value or below the limit plus the last upload. */
  lemma UsageBound(cfg: Config, users: set<string>, es: seq<Event>, user: string, n: nat, i: nat, limit: int)
      returns (k: nat)
    requires i < n <= |es| && user in After(cfg, users, es[..n]).rows
    requires EffectAt(cfg, users, es, i).Reset? && EffectAt(cfg, users, es, i).user == user
    requires forall j | i < j < n :: var f := EffectAt(cfg, users, es, j); f == Nothing || f.Charge? || f.user != user
    requires forall j | i < j < n :: Limit(cfg, After(cfg, users, es[..j]), user) == Some(limit)
    ensures i <= k < n && forall j | k < j < n :: var f := EffectAt(cfg, users, es, j); f == Nothing || f.user != user
    ensures var used := After(cfg, users, es[..n]).rows[user].used;
            if k == i then used == EffectAt(cfg, users, es, i).value
            else EffectAt(cfg, users, es, k).Charge? && EffectAt(cfg, users, es, k).user == user
                 && used < limit + EffectAt(cfg, users, es, k).bytes
  {
    k := OvershootIsOneUpload(cfg, users, es, user, n);
  }
}
