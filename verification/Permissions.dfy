/** The permission levels of mlflow_oidc_auth/permissions.py and the order on them. */
module Permissions {
  import opened Common

  datatype Level = READ | USE | EDIT | MANAGE | NO_PERMISSIONS

  function Priority(l: Level): nat {
    match l
    case READ => 1
    case USE => 2
    case EDIT => 3
    case MANAGE => 4
    case NO_PERMISSIONS => 100
  }

  predicate CanRead(l: Level) { l != NO_PERMISSIONS }

  function Name(l: Level): string {
    match l
    case READ => "READ"
    case USE => "USE"
    case EDIT => "EDIT"
    case MANAGE => "MANAGE"
    case NO_PERMISSIONS => "NO_PERMISSIONS"
  }

  /** The lookup in ALL_PERMISSIONS; None stands for the validation error. */
  function Parse(name: string): (r: Option<Level>)
    ensures r.Some? ==> Name(r.value) == name
    ensures r.None? ==> forall l: Level :: Name(l) != name
  {
    if name == "READ" then Some(READ)
    else if name == "USE" then Some(USE)
    else if name == "EDIT" then Some(EDIT)
    else if name == "MANAGE" then Some(MANAGE)
    else if name == "NO_PERMISSIONS" then Some(NO_PERMISSIONS)
    else None
  }

  /** The five names, spelled out; case matters. */
  lemma KnownNames()
    ensures Parse("READ") == Some(READ) && Parse("USE") == Some(USE) && Parse("EDIT") == Some(EDIT)
    ensures Parse("MANAGE") == Some(MANAGE) && Parse("NO_PERMISSIONS") == Some(NO_PERMISSIONS) && Parse("read") == None
  {
  }

  /** compare_permissions on validated names. */
  predicate AtMost(a: Level, b: Level) { Priority(a) <= Priority(b) }

  /**
   * The level that decides for a set of granted levels, written without priorities: a
   * NO_PERMISSIONS among them denies, otherwise the strongest level wins.
   */
  function Decisive(levels: set<Level>): Option<Level> {
    if NO_PERMISSIONS in levels then Some(NO_PERMISSIONS)
    else if MANAGE in levels then Some(MANAGE)
    else if EDIT in levels then Some(EDIT)
    else if USE in levels then Some(USE)
    else if READ in levels then Some(READ)
    else None
  }

  /**
   * The decisive level is the one member no other member exceeds in priority, and there is one
   * unless nothing is granted.
   */
  lemma DecisiveIsGreatest(levels: set<Level>, l: Level)
    ensures Decisive(levels) == Some(l) <==> l in levels && forall m | m in levels :: AtMost(m, l)
    ensures Decisive(levels) == None <==> levels == {}
  {
    if levels != {} {
      var x :| x in levels;
      assert x == READ || x == USE || x == EDIT || x == MANAGE || x == NO_PERMISSIONS;
    }
    var d := Decisive(levels);
    if d.Some? {
      assert forall m | m in levels :: AtMost(m, d.value);
      if l in levels && AtMost(d.value, l) {
        assert AtMost(l, d.value);
        assert Priority(l) == Priority(d.value);
      }
    }
  }
}
