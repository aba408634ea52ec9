/** Updating the runner: the states of an update, recovery after a crash, and the checks that
    an update, and its rollback, can live with the persisted state. The comparison of versions
    is an arbitrary function. */
module RunnerUpdates {
  import opened Outcomes

  datatype State =
    | Idle | Preparing | Draining | Staging | ReadyToSwitch | Switching | StartingTarget | VerifyingTarget
    | UpdateSucceeded | FailedBeforeSwitch | RollingBack | RolledBack | ManualRecoveryRequired

  function Allowed(s: State): set<State> {
    match s
    case Idle => {Preparing}
    case Preparing => {Draining, FailedBeforeSwitch, ManualRecoveryRequired}
    case Draining => {Staging, RollingBack, FailedBeforeSwitch, ManualRecoveryRequired}
    case Staging => {ReadyToSwitch, FailedBeforeSwitch, ManualRecoveryRequired}
    case ReadyToSwitch => {Switching, FailedBeforeSwitch, ManualRecoveryRequired}
    case Switching => {StartingTarget, RollingBack, FailedBeforeSwitch, ManualRecoveryRequired}
    case StartingTarget => {VerifyingTarget, RollingBack, ManualRecoveryRequired}
    case VerifyingTarget => {UpdateSucceeded, RollingBack, ManualRecoveryRequired}
    case UpdateSucceeded => {Idle}
    case FailedBeforeSwitch => {Idle}
    case RollingBack => {RolledBack, ManualRecoveryRequired}
    case RolledBack => {Idle}
    case ManualRecoveryRequired => {}
  }

  // ---------- Paths ----------

  predicate IsPath(path: seq<State>) {
    path != [] && forall k :: 0 < k < |path| ==> path[k] in Allowed(path[k - 1])
  }

  ghost predicate Reachable(from: State, to: State) {
    exists path :: IsPath(path) && path[0] == from && path[|path| - 1] == to
  }

  const COMPLETE_UPDATE := [Idle, Preparing, Draining, Staging, ReadyToSwitch, Switching, StartingTarget, VerifyingTarget, UpdateSucceeded]

  // Every transition but the ones back to idle goes up.
  function Rank(s: State): nat {
    match s
    case Idle => 0
    case Preparing => 1
    case Draining => 2
    case Staging => 3
    case ReadyToSwitch => 4
    case Switching => 5
    case StartingTarget => 6
    case VerifyingTarget => 7
    case UpdateSucceeded => 8
    case FailedBeforeSwitch => 9
    case RollingBack => 8
    case RolledBack => 9
    case ManualRecoveryRequired => 9
  }

  lemma OnlyPredecessor(s: State, n: nat)
    requires 0 < n < |COMPLETE_UPDATE| && COMPLETE_UPDATE[n] in Allowed(s)
    ensures s == COMPLETE_UPDATE[n - 1]
  {}

  // The only way from idle to a state of a complete update is that update up to there: so an
  // update that succeeds has prepared, drained, staged, switched, started and verified, in
  // this order and with nothing in between.
  lemma {:induction false} OnlyWayThere(path: seq<State>, last: nat, n: nat)
    requires IsPath(path) && path[0] == Idle && last < |path| && n < |COMPLETE_UPDATE| && path[last] == COMPLETE_UPDATE[n]
    ensures n <= last && forall i :: 0 <= i <= n ==> path[last - n + i] == COMPLETE_UPDATE[i]
    decreases n
  {
    if n > 0 {
      assert path[last] in Allowed(path[last - 1]);
      OnlyPredecessor(path[last - 1], n);
      OnlyWayThere(path, last - 1, n - 1);
    }
  }

  // An update cannot go on for ever: without passing idle again it has at most ten states.
  lemma UpdatesEnd(path: seq<State>)
    requires IsPath(path) && forall i :: 0 < i < |path| ==> path[i] != Idle
    ensures |path| + Rank(path[0]) <= 10
  {
    RankRises(path, |path| - 1);
  }

  lemma {:induction false} RankRises(path: seq<State>, k: nat)
    requires IsPath(path) && k < |path| && forall i :: 0 < i < |path| ==> path[i] != Idle
    ensures Rank(path[k]) >= Rank(path[0]) + k
  {
    if k > 0 {
      RankRises(path, k - 1);
      assert path[k] in Allowed(path[k - 1]);
    }
  }

  // ---------- Recovery after a crash ----------

  datatype ServiceRelease = SourceRelease | TargetRelease | NeitherRelease | AmbiguousRelease

  datatype Health = HealthPending | Healthy | Unhealthy

  datatype Safety = Safe | Unsafe | Unknown

  datatype Observation = Observation(service: ServiceRelease, targetHealth: Health, sourceHealth: Health, rollback: Safety)

  datatype Action =
    | NoAction | FailBeforeSwitch | ResumeTargetVerification | CompleteTarget | BeginRollback | RetryRollback
    | CompleteRollback | ManualRecovery

  datatype Decision = Decision(action: Action, next: Option<State>)

  const MANUAL := Decision(ManualRecovery, Some(ManualRecoveryRequired))

  predicate IsTerminal(s: State) {
    s in {Idle, UpdateSucceeded, FailedBeforeSwitch, RolledBack, ManualRecoveryRequired}
  }

  function DecideCrashRecovery(journal: Option<State>, o: Observation): Decision {
    if journal.None? || IsTerminal(journal.value) then Decision(NoAction, None)
    else if journal.value in {Preparing, Draining, Staging, ReadyToSwitch} then
      if o.service.SourceRelease? then Decision(FailBeforeSwitch, Some(FailedBeforeSwitch)) else MANUAL
    else if journal.value in {Switching, StartingTarget, VerifyingTarget} then
      if journal.value.Switching? && o.service.SourceRelease? then Decision(FailBeforeSwitch, Some(FailedBeforeSwitch))
      else if !o.service.TargetRelease? || !o.rollback.Safe? then MANUAL
      else
        match o.targetHealth
        case HealthPending => Decision(ResumeTargetVerification, Some(VerifyingTarget))
        case Healthy => Decision(CompleteTarget, Some(UpdateSucceeded))
        case Unhealthy => Decision(BeginRollback, Some(RollingBack))
    else if !o.rollback.Safe? then MANUAL
    else if o.service.SourceRelease? && o.sourceHealth.Healthy? then Decision(CompleteRollback, Some(RolledBack))
    else if o.service.TargetRelease? then Decision(RetryRollback, Some(RollingBack))
    else MANUAL
  }

  function Recovered(s: State, o: Observation): State {
    var d := DecideCrashRecovery(Some(s), o);
    if d.next.Some? then d.next.value else s
  }

  // Recovery only goes where the update could have gone by itself; and a target is completed,
  // or a rollback begun or completed, only when the rollback is known to be safe.
  lemma RecoveryFollowsTheTable(s: State, o: Observation)
    ensures Reachable(s, Recovered(s, o))
    ensures Recovered(s, o) in {VerifyingTarget, UpdateSucceeded, RollingBack, RolledBack} ==>
              o.rollback.Safe? || Recovered(s, o) == s
  {
    var path :=
      if Recovered(s, o) == s then [s]
      else if Recovered(s, o) in Allowed(s) then [s, Recovered(s, o)]
      else if s.Switching? && Recovered(s, o).VerifyingTarget? then [s, StartingTarget, VerifyingTarget]
      else if s.Switching? then [s, StartingTarget, VerifyingTarget, Recovered(s, o)]
      else [s, VerifyingTarget, Recovered(s, o)];
    assert IsPath(path) && path[0] == s && path[|path| - 1] == Recovered(s, o);
  }

  // An update is completed exactly when its target is seen running, healthy and safe to roll
  // back; a rollback begins exactly when such a target is unhealthy, and is completed exactly
  // when the source is seen running and healthy; and a person is asked exactly when what is
  // seen fits none of this and is not the untouched source either.
  lemma RecoversExactlyWhen(s: State, o: Observation)
    requires !IsTerminal(s)
    ensures var running := s in {Switching, StartingTarget, VerifyingTarget} && o.service.TargetRelease? && o.rollback.Safe?;
            var untouched := s in {Preparing, Draining, Staging, ReadyToSwitch, Switching} && o.service.SourceRelease?;
            var back := s.RollingBack? && o.rollback.Safe?;
            && (Recovered(s, o) == UpdateSucceeded <==> running && o.targetHealth.Healthy?)
            && (Recovered(s, o) == RollingBack <==> (running && o.targetHealth.Unhealthy?) || (back && o.service.TargetRelease?))
            && (Recovered(s, o) == RolledBack <==> back && o.service.SourceRelease? && o.sourceHealth.Healthy?)
            && (Recovered(s, o) == FailedBeforeSwitch <==> untouched)
            && (Recovered(s, o) == ManualRecoveryRequired <==>
                  !running && !untouched
                  && !(back && (o.service.TargetRelease? || (o.service.SourceRelease? && o.sourceHealth.Healthy?))))
  {}

  lemma RecoveryIsIdempotent(s: State, o: Observation)
    ensures Recovered(Recovered(s, o), o) == Recovered(s, o)
  {}

  // The state after n crashes in a row that all find the same.
  function RecoveredTimes(s: State, o: Observation, n: nat): State {
    if n == 0 then s else Recovered(RecoveredTimes(s, o, n - 1), o)
  }

  // However often the runner crashes without making progress, the state is that of the first
  // recovery, from which no further crash moves it.
  lemma {:induction false} CrashLoopsStandStill(s: State, o: Observation, n: nat)
    requires n > 0
    ensures RecoveredTimes(s, o, n) == Recovered(s, o)
  {
    if n == 1 {
      assert RecoveredTimes(s, o, 0) == s;
    } else {
      CrashLoopsStandStill(s, o, n - 1);
      RecoveryIsIdempotent(s, o);
    }
  }

  // Transitions and recoveries from any number of crashes.
  predicate IsHistory(states: seq<State>, observed: seq<Observation>) {
    |states| == |observed| + 1
    && forall i :: 0 <= i < |observed| ==>
         states[i + 1] in Allowed(states[i]) || states[i + 1] == Recovered(states[i], observed[i])
  }

  // Even with crashes, no target is started, verified or completed without a switch.
  lemma {:induction false} SwitchedBefore(states: seq<State>, observed: seq<Observation>, n: nat) returns (k: nat)
    requires IsHistory(states, observed) && states[0] == Idle && n < |states|
    requires states[n] in {StartingTarget, VerifyingTarget, UpdateSucceeded}
    ensures k < n && states[k] == Switching && forall i :: k < i <= n ==> states[i] in {StartingTarget, VerifyingTarget, UpdateSucceeded}
    decreases n
  {
    assert n > 0;
    assert states[n] in Allowed(states[n - 1]) || states[n] == Recovered(states[n - 1], observed[n - 1]);
    if states[n - 1] == Switching {
      k := n - 1;
    } else {
      k := SwitchedBefore(states, observed, n - 1);
    }
  }

  // ---------- Compatibility ----------

  // The schemas of a release: it can read some and writes one of them.
  datatype Schemas = Schemas(readable: set<nat>, writable: nat)

  datatype Release = Release(
    version: string, artifacts: set<(string, string)>, localState: Schemas, vault: Schemas, profiles: set<string>)

  datatype Vault = Vault(schema: nat, profile: string)

  // What is installed, and where.
  datatype Persisted = Persisted(localState: nat, vault: Option<Vault>)

  datatype Machine = Machine(platform: string, architecture: string)

  datatype Verdict = Compatible | MigrationRequired | Unsupported | DowngradeBlocked

  datatype Reason =
    | ArtifactMissing | LocalStateUnreadable | VaultUnreadable | ProfileUnreadable
    | LocalStateMigration | VaultMigration | SchemaDowngrade

  datatype Preflight = Preflight(verdict: Verdict, reasons: seq<Reason>)

  predicate HasArtifact(r: Release, m: Machine) {
    (m.platform, m.architecture) in r.artifacts
  }

  // What can stand in the way of release r on machine m with the persisted state p.
  predicate Applies(x: Reason, r: Release, p: Persisted, m: Machine) {
    match x
    case ArtifactMissing => !HasArtifact(r, m)
    case LocalStateUnreadable => p.localState !in r.localState.readable
    case VaultUnreadable => p.vault.Some? && p.vault.value.schema !in r.vault.readable
    case ProfileUnreadable => p.vault.Some? && p.vault.value.profile !in r.profiles
    case LocalStateMigration => r.localState.writable > p.localState
    case VaultMigration => p.vault.Some? && r.vault.writable > p.vault.value.schema
    case SchemaDowngrade =>
      r.localState.writable < p.localState || (p.vault.Some? && r.vault.writable < p.vault.value.schema)
  }

  const UNREADABLE := {LocalStateUnreadable, VaultUnreadable, ProfileUnreadable}
  const MIGRATION := {LocalStateMigration, VaultMigration}

  // The release runs on the machine, reads what is persisted, and writes the same schemas.
  predicate Fits(r: Release, p: Persisted, m: Machine) {
    && HasArtifact(r, m)
    && p.localState in r.localState.readable && p.localState == r.localState.writable
    && (p.vault.Some? ==>
          p.vault.value.schema in r.vault.readable && p.vault.value.schema == r.vault.writable && p.vault.value.profile in r.profiles)
  }

  predicate AnyApplies(xs: set<Reason>, r: Release, p: Persisted, m: Machine) {
    exists x :: x in xs && Applies(x, r, p, m)
  }

  // A release is compatible exactly when it fits. Otherwise the first kind of obstacle that
  // applies decides, and the reasons are all the obstacles of that kind.
  method EvaluateUpgradePreflight(compare: (string, string) -> int, from: string, r: Release, p: Persisted, m: Machine)
    returns (result: Preflight)
    ensures result.verdict.Compatible? <==> Fits(r, p, m)
    ensures result.verdict.Compatible? <==> result.reasons == []
    ensures forall x :: x in result.reasons ==> Applies(x, r, p, m)
    ensures !HasArtifact(r, m) ==> result == Preflight(Unsupported, [ArtifactMissing])
    ensures HasArtifact(r, m) && AnyApplies(UNREADABLE, r, p, m) ==>
      && result.verdict == (if compare(r.version, from) < 0 then DowngradeBlocked else Unsupported)
      && forall x :: x in result.reasons <==> x in UNREADABLE && Applies(x, r, p, m)
    ensures HasArtifact(r, m) && !AnyApplies(UNREADABLE, r, p, m) && Applies(SchemaDowngrade, r, p, m) ==>
      result == Preflight(DowngradeBlocked, [SchemaDowngrade])
    ensures result.verdict.MigrationRequired? ==> forall x :: x in result.reasons <==> x in MIGRATION && Applies(x, r, p, m)
  {
    if !HasArtifact(r, m) {
      return Preflight(Unsupported, [ArtifactMissing]);
    }
    var unreadable: seq<Reason> := [];
    if p.localState !in r.localState.readable {
      unreadable := unreadable + [LocalStateUnreadable];
    }
    if p.vault.Some? {
      if p.vault.value.schema !in r.vault.readable {
        unreadable := unreadable + [VaultUnreadable];
      }
      if p.vault.value.profile !in r.profiles {
        unreadable := unreadable + [ProfileUnreadable];
      }
    }
    assert forall x :: x in unreadable <==> x in UNREADABLE && Applies(x, r, p, m);
    if |unreadable| > 0 {
      assert unreadable[0] in unreadable;
      return Preflight(if compare(r.version, from) < 0 then DowngradeBlocked else Unsupported, unreadable);
    }
    assert forall x :: x in UNREADABLE ==> !Applies(x, r, p, m);
    if r.localState.writable < p.localState || (p.vault.Some? && r.vault.writable < p.vault.value.schema) {
      return Preflight(DowngradeBlocked, [SchemaDowngrade]);
    }
    var migration: seq<Reason> := [];
    if r.localState.writable > p.localState {
      migration := migration + [LocalStateMigration];
    }
    if p.vault.Some? && r.vault.writable > p.vault.value.schema {
      migration := migration + [VaultMigration];
    }
    assert forall x :: x in migration <==> x in MIGRATION && Applies(x, r, p, m);
    result := if |migration| > 0 then Preflight(MigrationRequired, migration) else Preflight(Compatible, []);
  }

  datatype BlockReason = TargetNotNewer | Forward(verdict: Verdict) | Rollback(verdict: Verdict)

  // What the target may leave behind: every schema as it writes it, the vault in its profile.
  function Projected(target: Release, p: Persisted): Persisted {
    Persisted(
      target.localState.writable,
      if p.vault.None? then None else Some(Vault(target.vault.writable, p.vault.value.profile)))
  }

  predicate UpdateAllowed(compare: (string, string) -> int, current: Release, target: Release, p: Persisted, m: Machine) {
    && compare(target.version, current.version) > 0
    && Fits(target, p, m)
    && Fits(current, Projected(target, p), m)
  }

  // An update is allowed, without a reason, exactly when the target is newer and both it and
  // the way back fit.
  method EvaluateRunnerUpdatePreflight(
    compare: (string, string) -> int, current: Release, target: Release, p: Persisted, m: Machine)
    returns (reasons: seq<BlockReason>)
    ensures reasons == [] <==> UpdateAllowed(compare, current, target, p, m)
    ensures TargetNotNewer in reasons <==> compare(target.version, current.version) <= 0
    ensures (exists v :: Forward(v) in reasons) <==> !Fits(target, p, m)
    ensures (exists v :: Rollback(v) in reasons) <==> !Fits(current, Projected(target, p), m)
  {
    var forward := EvaluateUpgradePreflight(compare, current.version, target, p, m);
    var back := EvaluateUpgradePreflight(compare, target.version, current, Projected(target, p), m);
    reasons := [];
    if compare(target.version, current.version) <= 0 {
      reasons := reasons + [TargetNotNewer];
    }
    if !forward.verdict.Compatible? {
      reasons := reasons + [Forward(forward.verdict)];
      assert Forward(forward.verdict) in reasons;
    }
    if !back.verdict.Compatible? {
      reasons := reasons + [Rollback(back.verdict)];
      assert Rollback(back.verdict) in reasons;
    }
  }

  // What the target may in fact have left behind when the rollback is checked again: each part
  // as it was or rewritten, and perhaps a vault where there was none.
  predicate LeftBehind(target: Release, p: Persisted, after: Persisted) {
    && (after.localState == p.localState || after.localState == target.localState.writable)
    && (p.vault.Some? ==>
          after.vault == p.vault || after.vault == Some(Vault(target.vault.writable, p.vault.value.profile)))
    && (p.vault.None? && after.vault.Some? ==>
          after.vault.value.schema == target.vault.writable && after.vault.value.profile in target.profiles)
  }

  // After an allowed update the rollback check finds the old release fitting, exactly unless
  // the target has created a vault that the old release cannot use: the preflight, which knows
  // of no vault, has not asked for that.
  lemma RollbackStaysSafe(
    compare: (string, string) -> int, current: Release, target: Release, p: Persisted, m: Machine, after: Persisted)
    requires UpdateAllowed(compare, current, target, p, m) && LeftBehind(target, p, after)
    ensures Fits(current, after, m) <==>
      (p.vault.None? && after.vault.Some? ==>
         && target.vault.writable in current.vault.readable && target.vault.writable == current.vault.writable
         && after.vault.value.profile in current.profiles)
  {}

  lemma AllowedUpdatesKeepSchemas(
    compare: (string, string) -> int, current: Release, target: Release, p: Persisted, m: Machine)
    requires UpdateAllowed(compare, current, target, p, m)
    ensures Projected(target, p) == p
  {}

  // What is persisted after the first n updates of a chain, each of which writes all it writes.
  function PersistedAfter(releases: seq<Release>, p: Persisted, n: nat): Persisted
    requires n < |releases|
  {
    if n == 0 then p else Projected(releases[n], PersistedAfter(releases, p, n - 1))
  }

  // Each release of the chain is an allowed update of the one before it.
  predicate AllowedChain(compare: (string, string) -> int, releases: seq<Release>, p: Persisted, m: Machine) {
    forall n :: 0 < n < |releases| ==>
      UpdateAllowed(compare, releases[n - 1], releases[n], PersistedAfter(releases, p, n - 1), m)
  }

  // No chain of allowed updates ever changes a schema of what is persisted.
  lemma {:induction false} ChainsKeepSchemas(
    compare: (string, string) -> int, releases: seq<Release>, p: Persisted, m: Machine, n: nat)
    requires AllowedChain(compare, releases, p, m) && n < |releases|
    ensures PersistedAfter(releases, p, n) == p
  {
    if n > 0 {
      ChainsKeepSchemas(compare, releases, p, m, n - 1);
      AllowedUpdatesKeepSchemas(compare, releases[n - 1], releases[n], p, m);
    }
  }

  // So each check of a single step reaches all the way back: at any point of a chain every
  // release of it still fits, not only the one just replaced.
  lemma EveryReleaseOfTheChainFits(
    compare: (string, string) -> int, releases: seq<Release>, p: Persisted, m: Machine, i: nat, n: nat)
    requires AllowedChain(compare, releases, p, m) && |releases| > 1 && i < |releases| && n < |releases|
    ensures Fits(releases[i], PersistedAfter(releases, p, n), m)
  {
    ChainsKeepSchemas(compare, releases, p, m, n);
    var k := if i == 0 then 1 else i;
    ChainsKeepSchemas(compare, releases, p, m, k - 1);
    assert UpdateAllowed(compare, releases[k - 1], releases[k], PersistedAfter(releases, p, k - 1), m);
    AllowedUpdatesKeepSchemas(compare, releases[k - 1], releases[k], p, m);
  }

  lemma CreatedVaultBlocksRollback()
    ensures var m := Machine("windows", "x64");
            var current := Release("1.0.0", {("windows", "x64")}, Schemas({1}, 1), Schemas({1}, 1), {"dpapi"});
            var target := Release("1.1.0", {("windows", "x64")}, Schemas({1}, 1), Schemas({1, 2}, 2), {"dpapi"});
            var p, after := Persisted(1, None), Persisted(1, Some(Vault(2, "dpapi")));
            var compare := (a: string, b: string) => if a == b then 0 else if a == "1.1.0" then 1 else -1;
            && UpdateAllowed(compare, current, target, p, m) && LeftBehind(target, p, after) && !Fits(current, after, m)
  {
    assert "1.1.0" != "1.0.0" by { assert "1.1.0"[2] != "1.0.0"[2]; }
  }
}
