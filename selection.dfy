/**
 * `getDisplays`: choosing the primary and the target output from the table
 * and the `--primary`/`--target` overrides, with the tool's fixed order of
 * error checks.
 */
module Selection {
  import opened Wrappers
  import opened Sequences
  import opened Displays

  /** The reasons selection gives up; each is printed before exiting with status 1. */
  datatype SelectError = NoDisplays | NoPrimary | NoTarget | PrimaryNotFound | TargetNotFound {
    function Message(): string {
      match this
      case NoDisplays => "no displays detected"
      case NoPrimary => "no primary display detected"
      case NoTarget => "no target display detected"
      case PrimaryNotFound => "requested primary display not found"
      case TargetNotFound => "requested target display not found"
    }
  }

  /** The resolved pair and their records (`primary, target, dp, dt`). */
  datatype Selection = Selection(primary: Id, target: Id, dp: Display, dt: Display)

  /** JavaScript truthiness of a name that may be `undefined`: the empty name is falsy. */
  predicate Truthy(o: Option<Id>) {
    o.Some? && o.value != ""
  }

  /** The default primary is an output whose index is 0. */
  predicate IsPrimaryCandidate(e: (Id, Display)) {
    e.1.index == 0
  }

  /** The default target is a connected output other than the primary. */
  function IsTargetCandidate(primary: Id): ((Id, Display)) -> bool {
    (e: (Id, Display)) => e.0 != primary && e.1.connected
  }

  /** The first key, in table order, whose entry satisfies `p`. */
  function FirstKey(t: Table, p: ((Id, Display)) -> bool): (r: Option<Id>)
    ensures r.None? <==> forall i :: 0 <= i < |t| ==> !p(t[i])
    ensures r.Some? ==> exists i :: IsFirst(t, i, p) && t[i].0 == r.value
  {
    FilterHead(t, p);
    var f := Filter(t, p);
    if f == [] then None else Some(f[0].0)
  }

  function Select(t: Table, primaryOpt: Option<Id>, targetOpt: Option<Id>): (r: Result<Selection, SelectError>)
    ensures |t| == 0 ==> r == Err(NoDisplays)
    ensures r.Ok? ==> r.value.primary != "" && r.value.target != ""
    ensures r.Ok? ==> Lookup(t, r.value.primary) == Some(r.value.dp)
    ensures r.Ok? ==> Lookup(t, r.value.target) == Some(r.value.dt)
    ensures r.Ok? && Truthy(primaryOpt) ==> r.value.primary == primaryOpt.value
    ensures r.Ok? && Truthy(targetOpt) ==> r.value.target == targetOpt.value
  {
    if |t| == 0 then Err(NoDisplays)
    else
      var primary := if Truthy(primaryOpt) then primaryOpt else FirstKey(t, IsPrimaryCandidate);
      if !Truthy(primary) then Err(NoPrimary)
      else
        var p := primary.value;
        var target := if Truthy(targetOpt) then targetOpt else FirstKey(t, IsTargetCandidate(p));
        if !Truthy(target) then Err(NoTarget)
        else
          match Lookup(t, p)
          case None => Err(PrimaryNotFound)
          case Some(dp) =>
            match Lookup(t, target.value)
            case None => Err(TargetNotFound)
            case Some(dt) => Ok(Selection(p, target.value, dp, dt))
  }

  /**
   * Without an override, selection gets past the primary step exactly when
   * the first output with index 0 has a non-empty name, and that output is
   * the primary.
   */
  lemma DefaultPrimary(t: Table, primaryOpt: Option<Id>, targetOpt: Option<Id>)
    requires |t| > 0 && !Truthy(primaryOpt)
    ensures Select(t, primaryOpt, targetOpt) != Err(NoPrimary)
      <==> exists i :: IsFirst(t, i, IsPrimaryCandidate) && t[i].0 != ""
    ensures Select(t, primaryOpt, targetOpt).Ok? ==>
      exists i :: IsFirst(t, i, IsPrimaryCandidate) && t[i].0 == Select(t, primaryOpt, targetOpt).value.primary
    ensures DistinctIds(t) && Select(t, primaryOpt, targetOpt).Ok? ==>
      Select(t, primaryOpt, targetOpt).value.dp.index == 0
  {
    var r := Select(t, primaryOpt, targetOpt);
    var f := FirstKey(t, IsPrimaryCandidate);
    if f.Some? {
      var i :| IsFirst(t, i, IsPrimaryCandidate) && t[i].0 == f.value;
      if DistinctIds(t) && r.Ok? {
        LookupAt(t, i);
      }
    }
  }

  /**
   * Without an override, the target is the first connected output whose name
   * differs from the primary's, so it is never the primary itself.
   */
  lemma DefaultTarget(t: Table, primaryOpt: Option<Id>, targetOpt: Option<Id>)
    requires !Truthy(targetOpt)
    ensures Select(t, primaryOpt, targetOpt).Ok? ==>
      var s := Select(t, primaryOpt, targetOpt).value;
      s.target != s.primary &&
      exists i :: IsFirst(t, i, IsTargetCandidate(s.primary)) && t[i].0 == s.target
    ensures DistinctIds(t) && Select(t, primaryOpt, targetOpt).Ok? ==>
      Select(t, primaryOpt, targetOpt).value.dt.connected
  {
    var r := Select(t, primaryOpt, targetOpt);
    if r.Ok? {
      var p := r.value.primary;
      var f := FirstKey(t, IsTargetCandidate(p));
      assert f == Some(r.value.target);
      var i :| IsFirst(t, i, IsTargetCandidate(p)) && t[i].0 == f.value;
      assert IsTargetCandidate(p)(t[i]);
      if DistinctIds(t) {
        LookupAt(t, i);
      }
    }
  }

  /**
   * `p` is the primary the tool settles on: the override when one is given,
   * otherwise the first output with index 0; an empty name never qualifies.
   */
  ghost predicate ResolvesPrimary(t: Table, primaryOpt: Option<Id>, p: Id) {
    p != "" &&
    if Truthy(primaryOpt) then p == primaryOpt.value
    else exists i :: IsFirst(t, i, IsPrimaryCandidate) && t[i].0 == p
  }

  /**
   * `q` is the target the tool settles on once the primary is `p`: the
   * override when one is given, otherwise the first connected output not
   * named `p`; an empty name never qualifies.
   */
  ghost predicate ResolvesTarget(t: Table, p: Id, targetOpt: Option<Id>, q: Id) {
    q != "" &&
    if Truthy(targetOpt) then q == targetOpt.value
    else exists i :: IsFirst(t, i, IsTargetCandidate(p)) && t[i].0 == q
  }

  lemma FirstKeyAt(t: Table, p: ((Id, Display)) -> bool, i: int)
    requires IsFirst(t, i, p)
    ensures FirstKey(t, p) == Some(t[i].0)
  {
    assert p(t[i]);
    assert FirstKey(t, p).Some?;
    var j :| IsFirst(t, j, p) && t[j].0 == FirstKey(t, p).value;
  }

  /**
   * Once both names are resolved, selection succeeds exactly when both are
   * outputs of the table, with their own records; otherwise it reports the
   * first name that is missing, the primary before the target. This holds
   * for overrides and defaults alike.
   */
  lemma SelectResolved(t: Table, primaryOpt: Option<Id>, targetOpt: Option<Id>, p: Id, q: Id)
    requires |t| > 0 && ResolvesPrimary(t, primaryOpt, p) && ResolvesTarget(t, p, targetOpt, q)
    ensures !HasKey(t, p) ==> Select(t, primaryOpt, targetOpt) == Err(PrimaryNotFound)
    ensures HasKey(t, p) && !HasKey(t, q) ==> Select(t, primaryOpt, targetOpt) == Err(TargetNotFound)
    ensures HasKey(t, p) && HasKey(t, q) ==>
      Select(t, primaryOpt, targetOpt) == Ok(Selection(p, q, Lookup(t, p).value, Lookup(t, q).value))
  {
    if !Truthy(primaryOpt) {
      var i :| IsFirst(t, i, IsPrimaryCandidate) && t[i].0 == p;
      FirstKeyAt(t, IsPrimaryCandidate, i);
    }
    if !Truthy(targetOpt) {
      var j :| IsFirst(t, j, IsTargetCandidate(p)) && t[j].0 == q;
      FirstKeyAt(t, IsTargetCandidate(p), j);
    }
  }

  /**
   * When no name resolves as the target, selection reports a missing target,
   * whether the primary came from an override or the default, and before
   * either not-found check: even a requested primary that does not exist
   * gives this error.
   */
  lemma SelectNoTarget(t: Table, primaryOpt: Option<Id>, targetOpt: Option<Id>, p: Id)
    requires |t| > 0 && ResolvesPrimary(t, primaryOpt, p)
    requires forall q :: !ResolvesTarget(t, p, targetOpt, q)
    ensures Select(t, primaryOpt, targetOpt) == Err(NoTarget)
  {
    if !Truthy(primaryOpt) {
      var i :| IsFirst(t, i, IsPrimaryCandidate) && t[i].0 == p;
      FirstKeyAt(t, IsPrimaryCandidate, i);
    }
    if Truthy(targetOpt) {
      assert ResolvesTarget(t, p, targetOpt, targetOpt.value);
    }
    var f := FirstKey(t, IsTargetCandidate(p));
    if f.Some? && f.value != "" {
      assert ResolvesTarget(t, p, targetOpt, f.value);
    }
  }

  /** A connected output other than the primary always lets the default target resolve. */
  lemma DefaultTargetResolves(t: Table, p: Id, targetOpt: Option<Id>, k: int)
    requires !Truthy(targetOpt) && 0 <= k < |t| && t[k].0 != "" && IsTargetCandidate(p)(t[k])
    requires forall i :: 0 <= i < |t| ==> t[i].0 != ""
    ensures exists q :: ResolvesTarget(t, p, targetOpt, q)
  {
    FilterHead(t, IsTargetCandidate(p));
    var i :| IsFirst(t, i, IsTargetCandidate(p)) && Filter(t, IsTargetCandidate(p))[0] == t[i];
    assert ResolvesTarget(t, p, targetOpt, t[i].0);
  }
}
