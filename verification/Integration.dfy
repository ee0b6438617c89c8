/** Many owners integrating at once (god/integrator.go). */
module Integration {
  // The lease and clock protocol over the managers of heaven/leases.go, heaven/fileclock.go and heaven/server.go.

  import opened Strings
  import opened Leases
  import opened FileClocks

  /** An integration between its passed lease check and its end, with the paths it has written. */
  datatype Window = Window(manifest: Manifest, wrote: set<string>)

  /** An owner may have any number of integrations under way, each under its own number. */
  datatype State = State(table: Table, log: seq<Event>, repo: map<string, string>, windows: map<nat, Window>)

  /** One atomic step of some owner.
      Check is a manifest validation without missing leases, be it allowed or only drifted and then rebased;
      GiveUp is an integration that ends in a conflict mission instead of an increment. */
  datatype Step =
    | Acquire(req: Request, ids: seq<string>)
    | Release(ids: seq<string>)
    | Check(i: nat, manifest: Manifest)
    | Write(i: nat, path: string, content: string)
    | Increment(i: nat)
    | GiveUp(i: nat)
    | LogOther(kind: string)

  /** What the code lets happen. */
  predicate Enabled(s: State, step: Step) {
    match step
    case Acquire(req, ids) => |ids| == |req.scopes| && FreshIds(s.table, ids)
    case Release(_) => true
    case Check(i, m) => i !in s.windows && Missing(s.table, m) == []
    case Write(i, _, _) => i in s.windows
    case Increment(i) => i in s.windows
    case GiveUp(i) => i in s.windows
    case LogOther(_) => true
  }

  function Next(s: State, step: Step): State
    requires Enabled(s, step)
  {
    match step
    case Acquire(req, ids) =>
      var g := GrantAll(Grant(s.table, s.log, [], []), req, ids, |req.scopes|);
      s.(table := g.table, log := g.log)
    case Release(ids) =>
      var (table, log) := ReleaseAll(s.table, s.log, ids);
      s.(table := table, log := log)
    case Check(i, m) => s.(windows := s.windows[i := Window(m, {})])
    case Write(i, path, content) =>
      var w := s.windows[i];
      s.(repo := s.repo[path := content], windows := s.windows[i := w.(wrote := w.wrote + {path})])
    case Increment(i) =>
      var files := s.windows[i].manifest.files;
      s.(log := if files == [] then s.log else s.log + [FileClockInc(files)], windows := Without(s.windows, i))
    case GiveUp(i) => s.(windows := Without(s.windows, i))
    case LogOther(kind) => s.(log := s.log + [Other(kind)])
  }

  ghost predicate IsRun(s: State, steps: seq<Step>)
    decreases |steps|
  {
    steps == [] || (Enabled(s, steps[0]) && IsRun(Next(s, steps[0]), steps[1..]))
  }

  ghost function After(s: State, steps: seq<Step>): State
    requires IsRun(s, steps)
    decreases |steps|
  {
    if steps == [] then s else After(Next(s, steps[0]), steps[1..])
  }

  // ---- Rules the code leaves to its callers ------------------------------------------------------

  /** No lease is released that an open window of its owner needs; a path is written only under a manifest that names
      it; an owner does nothing in its windows; no integration gives up after it has written a path. */
  datatype Rule = LeasesKept | InManifest(path: string) | NotBy(owner: string) | NoHalfWay(path: string)

  /** The manifest names the scope key. */
  predicate Names(m: Manifest, k: string) {
    (exists y :: y in m.symbols && ScopeKey("symbol", y) == k) || (exists f :: f in m.files && ScopeKey("file", f) == k)
  }

  predicate Needed(s: State, lease: Lease) {
    exists i ::
      i in s.windows && s.windows[i].manifest.owner == lease.owner && Names(s.windows[i].manifest, KeyOf(lease))
  }

  predicate Obeys(s: State, step: Step, rule: Rule)
    requires Enabled(s, step)
  {
    match rule
    case LeasesKept =>
      step.Release? ==> forall id :: id in step.ids && id in s.table.leases ==> !Needed(s, s.table.leases[id])
    case InManifest(path) => step.Write? && step.path == path ==> path in s.windows[step.i].manifest.files
    case NotBy(owner) => step.Write? || step.Increment? || step.GiveUp? ==> s.windows[step.i].manifest.owner != owner
    case NoHalfWay(path) => step.GiveUp? ==> path !in s.windows[step.i].wrote
  }

  /** Every step of a run obeys the rule. */
  ghost predicate Obeyed(s: State, steps: seq<Step>, rule: Rule)
    requires IsRun(s, steps)
    decreases |steps|
  {
    steps == [] || (Obeys(s, steps[0], rule) && Obeyed(Next(s, steps[0]), steps[1..], rule))
  }

  // ---- Mutual exclusion ----------------------------------------------------------------------

  /** Every open window's owner holds every scope its manifest names, and the table is the one the log tells of. */
  ghost predicate Safe(s: State) {
    && Faithful(s.table, s.log)
    && forall i :: i in s.windows ==> Missing(s.table, s.windows[i].manifest) == []
  }

  lemma HeldScopes(t: Table, m: Manifest)
    ensures Missing(t, m) == [] <==> forall k :: Names(m, k) ==> Holds(t, m.owner, k)
  {
    UnheldNothing(t, m.owner, "symbol", m.symbols);
    UnheldNothing(t, m.owner, "file", m.files);
    if forall k :: Names(m, k) ==> Holds(t, m.owner, k) {
      forall j | 0 <= j < |m.symbols| ensures Holds(t, m.owner, ScopeKey("symbol", m.symbols[j])) {
        assert Names(m, ScopeKey("symbol", m.symbols[j]));
      }
      forall j | 0 <= j < |m.files| ensures Holds(t, m.owner, ScopeKey("file", m.files[j])) {
        assert Names(m, ScopeKey("file", m.files[j]));
      }
    }
  }

  /** Scopes held stay held when their holder keeps them. */
  lemma StillHeld(t: Table, r: Table, m: Manifest)
    requires Missing(t, m) == []
    requires forall k :: Names(m, k) && Holds(t, m.owner, k) ==> Holds(r, m.owner, k)
    ensures Missing(r, m) == []
  {
    HeldScopes(t, m);
    HeldScopes(r, m);
  }

  /** A release takes a held scope from its owner exactly when it names the scope's lease. */
  predicate TakesAway(t: Table, ids: seq<string>, k: string)
    requires k in t.scopes
  {
    t.scopes[k] in ids
  }

  lemma ReleaseOneHolds(t: Table, log: seq<Event>, id: string, owner: string, k: string)
    requires Faithful(t, log)
    ensures var r := ReleaseOne(t, log, id).0; Holds(r, owner, k) <==> Holds(t, owner, k) && t.scopes[k] != id
    ensures var r := ReleaseOne(t, log, id).0; Holds(r, owner, k) ==> r.scopes[k] == t.scopes[k]
  {
    ReplayIsBijective(log);
  }

  lemma {:induction false} ReleaseHolds(t: Table, log: seq<Event>, ids: seq<string>, owner: string, k: string)
    requires Faithful(t, log)
    ensures var r := ReleaseAll(t, log, ids).0; Holds(r, owner, k) <==> Holds(t, owner, k) && !TakesAway(t, ids, k)
    ensures var r := ReleaseAll(t, log, ids).0; Holds(r, owner, k) ==> r.scopes[k] == t.scopes[k]
  {
    if ids != [] {
      var init := ids[..|ids| - 1];
      assert ids == init + [ids[|ids| - 1]];
      ReleaseHolds(t, log, init, owner, k);
      ReleaseKeepsFaith(t, log, init);
      var (t1, log1) := ReleaseAll(t, log, init);
      ReleaseOneHolds(t1, log1, ids[|ids| - 1], owner, k);
    }
  }

  /** A release leaves a manifest its scopes exactly when it names none of the leases that the manifest needs. */
  lemma ReleaseMissing(t: Table, log: seq<Event>, ids: seq<string>, m: Manifest)
    requires Faithful(t, log) && Missing(t, m) == []
    ensures Missing(ReleaseAll(t, log, ids).0, m) == [] <==>
      forall id :: id in ids && id in t.leases && t.leases[id].owner == m.owner ==> !Names(m, KeyOf(t.leases[id]))
  {
    var r := ReleaseAll(t, log, ids).0;
    ReplayIsBijective(log);
    HeldScopes(t, m);
    HeldScopes(r, m);
    forall k ensures Holds(r, m.owner, k) <==> Holds(t, m.owner, k) && !TakesAway(t, ids, k) {
      ReleaseHolds(t, log, ids, m.owner, k);
    }
    if Missing(r, m) == [] {
      forall id | id in ids && id in t.leases && t.leases[id].owner == m.owner ensures !Names(m, KeyOf(t.leases[id])) {
        if Names(m, KeyOf(t.leases[id])) { assert TakesAway(t, ids, KeyOf(t.leases[id])); }
      }
    } else {
      var k :| Names(m, k) && !Holds(r, m.owner, k);
      assert Holds(t, m.owner, k) && TakesAway(t, ids, k);
      assert KeyOf(t.leases[t.scopes[k]]) == k;
    }
  }

  lemma AcquireKeepsHeld(s: State, step: Step, m: Manifest)
    requires Faithful(s.table, s.log) && Enabled(s, step) && step.Acquire? && Missing(s.table, m) == []
    ensures Missing(Next(s, step).table, m) == []
  {
    GrantExtends(Grant(s.table, s.log, [], []), step.req, step.ids, |step.req.scopes|);
    StillHeld(s.table, Next(s, step).table, m);
  }

  lemma {:induction false} StepKeepsFaith(s: State, step: Step)
    requires Faithful(s.table, s.log) && Enabled(s, step)
    ensures Faithful(Next(s, step).table, Next(s, step).log)
  {
    match step
    case Acquire(req, ids) => GrantKeepsFaith(Grant(s.table, s.log, [], []), req, ids, |req.scopes|);
    case Release(ids) => ReleaseKeepsFaith(s.table, s.log, ids);
    case Increment(i) => FaithfulStep(s.table, s.log, FileClockInc(s.windows[i].manifest.files));
    case LogOther(kind) => FaithfulStep(s.table, s.log, Other(kind));
    case _ =>
  }

  lemma ReleaseIsSafeIff(s: State, step: Step)
    requires Safe(s) && Enabled(s, step) && step.Release?
    ensures Safe(Next(s, step)) <==> Obeys(s, step, LeasesKept)
  {
    StepKeepsFaith(s, step);
    forall i | i in s.windows
      ensures var m := s.windows[i].manifest;
        Missing(Next(s, step).table, m) == [] <==>
          forall id :: id in step.ids && id in s.table.leases && s.table.leases[id].owner == m.owner ==>
            !Names(m, KeyOf(s.table.leases[id]))
    {
      ReleaseMissing(s.table, s.log, step.ids, s.windows[i].manifest);
    }
  }

  /** A step keeps the invariant exactly when it releases no lease that an open window needs. */
  lemma StepIsSafe(s: State, step: Step)
    requires Safe(s) && Enabled(s, step)
    ensures Safe(Next(s, step)) <==> Obeys(s, step, LeasesKept)
  {
    StepKeepsFaith(s, step);
    if step.Release? {
      ReleaseIsSafeIff(s, step);
    } else if step.Acquire? {
      forall i | i in s.windows ensures Missing(Next(s, step).table, s.windows[i].manifest) == [] {
        AcquireKeepsHeld(s, step, s.windows[i].manifest);
      }
    }
  }

  lemma {:induction false} RunIsSafe(s: State, steps: seq<Step>)
    requires Safe(s) && IsRun(s, steps) && Obeyed(s, steps, LeasesKept)
    ensures Safe(After(s, steps))
    decreases |steps|
  {
    if steps != [] {
      StepIsSafe(s, steps[0]);
      RunIsSafe(Next(s, steps[0]), steps[1..]);
    }
  }

  /** A server that starts on any log its managers wrote, with nobody integrating. */
  ghost predicate Start(s: State) {
    Faithful(s.table, s.log) && s.windows == map[]
  }

  ghost predicate Share(m: Manifest, n: Manifest) {
    exists k :: Names(m, k) && Names(n, k)
  }

  lemma NoShare(t: Table, m: Manifest, n: Manifest)
    requires Missing(t, m) == [] && Missing(t, n) == [] && m.owner != n.owner
    ensures !Share(m, n)
  {
    HeldScopes(t, m);
    HeldScopes(t, n);
  }

  lemma NoSharedFile(t: Table, m: Manifest, n: Manifest, f: string)
    requires Missing(t, m) == [] && Missing(t, n) == [] && m.owner != n.owner && f in m.files
    ensures f !in n.files
  {
    NoShare(t, m, n);
    assert Names(m, ScopeKey("file", f));
  }

  /** In every interleaving, two open windows of different owners share no file and no symbol, as long as no lease is
      released that an open window needs. */
  lemma WindowsExclude(s: State, steps: seq<Step>, i: nat, j: nat)
    requires Start(s) && IsRun(s, steps) && Obeyed(s, steps, LeasesKept)
    requires i in After(s, steps).windows && j in After(s, steps).windows
    requires After(s, steps).windows[i].manifest.owner != After(s, steps).windows[j].manifest.owner
    ensures !Share(After(s, steps).windows[i].manifest, After(s, steps).windows[j].manifest)
  {
    RunIsSafe(s, steps);
    var r := After(s, steps);
    NoShare(r.table, r.windows[i].manifest, r.windows[j].manifest);
  }

  /** After a lease that an open window needs is released, another owner can get it and pass its own check. */
  lemma TakenOver(t: Table, log: seq<Event>, owner: string, req: Request, f: string, id: string)
    requires Faithful(t, log) && Holds(t, owner, ScopeKey("file", f)) && id !in t.leases
    requires req.scopes == [Scope("file", f)]
    ensures var (r, rlog) := ReleaseAll(t, log, [t.scopes[ScopeKey("file", f)]]);
      && FreshIds(r, [id])
      && Holds(GrantAll(Grant(r, rlog, [], []), req, [id], 1).table, req.owner, ScopeKey("file", f))
  {
    var k := ScopeKey("file", f);
    var ids := [t.scopes[k]];
    ReplayIsBijective(log);
    assert KeyOf(t.leases[t.scopes[k]]) == k;
    var (r, rlog) := ReleaseAll(t, log, ids);
    assert (r, rlog) == ReleaseOne(t, log, t.scopes[k]) by {
      assert ids[..|ids| - 1] == [] && ReleaseAll(t, log, []) == (t, log);
    }
    assert k !in r.scopes && FreshIds(r, [id]);
    var g := Grant(r, rlog, [], []);
    assert GrantAll(g, req, [id], 1) == GrantOne(g, req, Scope("file", f), id);
  }

  lemma OneFileHeld(t: Table, m: Manifest, f: string)
    requires m.symbols == [] && m.files == [f] && Holds(t, m.owner, ScopeKey("file", f))
    ensures Missing(t, m) == []
  {
    HeldScopes(t, m);
  }

  lemma NeededReleased(s: State, i: nat, f: string, step: Step)
    requires Faithful(s.table, s.log) && i in s.windows && f in s.windows[i].manifest.files
    requires Holds(s.table, s.windows[i].manifest.owner, ScopeKey("file", f))
    requires step == Release([s.table.scopes[ScopeKey("file", f)]])
    ensures !Obeys(s, step, LeasesKept)
  {
    ReplayIsBijective(s.log);
    assert Needed(s, s.table.leases[s.table.scopes[ScopeKey("file", f)]]);
  }

  /** Without that rule two open windows of different owners can name the same file. */
  lemma ReleaseLetsIn(s: State, i: nat, j: nat, f: string, req: Request, id: string, m: Manifest)
    requires Safe(s) && i in s.windows && f in s.windows[i].manifest.files && j !in s.windows && id !in s.table.leases
    requires req.scopes == [Scope("file", f)] && req.owner == m.owner != s.windows[i].manifest.owner
    requires m.symbols == [] && m.files == [f] && Holds(s.table, s.windows[i].manifest.owner, ScopeKey("file", f))
    ensures var steps := [Release([s.table.scopes[ScopeKey("file", f)]]), Acquire(req, [id]), Check(j, m)];
      && IsRun(s, steps) && !Obeyed(s, steps, LeasesKept)
      && i in After(s, steps).windows && j in After(s, steps).windows
      && Share(After(s, steps).windows[i].manifest, After(s, steps).windows[j].manifest)
  {
    var k := ScopeKey("file", f);
    var steps := [Release([s.table.scopes[k]]), Acquire(req, [id]), Check(j, m)];
    TakenOver(s.table, s.log, s.windows[i].manifest.owner, req, f, id);
    assert steps[1..] == [steps[1], steps[2]] && steps[1..][1..] == [steps[2]] && steps[1..][1..][1..] == [];
    var s1 := Next(s, steps[0]);
    var s2 := Next(s1, steps[1]);
    OneFileHeld(s2.table, m, f);
    var s3 := Next(s2, steps[2]);
    assert IsRun(s3, []) && After(s3, []) == s3;
    assert IsRun(s2, [steps[2]]) && After(s2, [steps[2]]) == s3;
    assert IsRun(s1, steps[1..]) && After(s1, steps[1..]) == s3;
    assert Names(s.windows[i].manifest, k) && Names(m, k);
    NeededReleased(s, i, f, steps[0]);
  }

  // ---- What a window sees ------------------------------------------------------------------------

  function Content(s: State, path: string): Option<string> {
    if path in s.repo then Some(s.repo[path]) else None
  }

  lemma {:induction false} GrantTicks(g: Grant, req: Request, ids: seq<string>, n: nat, path: string)
    requires n <= |req.scopes| && |ids| == |req.scopes|
    ensures Ticks(GrantAll(g, req, ids, n).log, path) == Ticks(g.log, path)
  {
    if n > 0 {
      GrantTicks(g, req, ids, n - 1, path);
      var h, scope := GrantAll(g, req, ids, n - 1), req.scopes[n - 1];
      var lease := Lease(ids[n - 1], req.owner, req.mission, scope.scopeType, scope.scopeValue, req.now);
      TicksSnoc(h.log, LeaseIssued(lease), path);
    }
  }

  lemma {:induction false} ReleaseTicks(t: Table, log: seq<Event>, ids: seq<string>, path: string)
    ensures Ticks(ReleaseAll(t, log, ids).1, path) == Ticks(log, path)
  {
    if ids != [] {
      ReleaseTicks(t, log, ids[..|ids| - 1], path);
      var (t1, log1) := ReleaseAll(t, log, ids[..|ids| - 1]);
      TicksSnoc(log1, LeaseReleased(ids[|ids| - 1]), path);
    }
  }

  /** Only an increment moves a clock, by the number of times its manifest lists the path. */
  lemma StepTicks(s: State, step: Step, path: string)
    requires Enabled(s, step)
    ensures Ticks(Next(s, step).log, path) ==
      Ticks(s.log, path) + if step.Increment? then multiset(s.windows[step.i].manifest.files)[path] else 0
  {
    match step
    case Acquire(req, ids) => GrantTicks(Grant(s.table, s.log, [], []), req, ids, |req.scopes|, path);
    case Release(ids) => ReleaseTicks(s.table, s.log, ids, path);
    case Increment(i) => TicksSnoc(s.log, FileClockInc(s.windows[i].manifest.files), path);
    case LogOther(kind) => TicksSnoc(s.log, Other(kind), path);
    case _ =>
  }

  /** A step outside the window, and not in one that covers the path, leaves both alone. */
  lemma StepFrame(s: State, step: Step, i: nat, path: string)
    requires Enabled(s, step) && i in s.windows && (step.Write? || step.Increment? || step.GiveUp? ==> step.i != i)
    requires step.Write? ==> step.path != path
    ensures i in Next(s, step).windows && Next(s, step).windows[i] == s.windows[i]
    ensures Content(Next(s, step), path) == Content(s, path)
  {
  }

  lemma OthersStayOut(s: State, step: Step, i: nat, path: string)
    requires Safe(s) && Enabled(s, step) && i in s.windows && path in s.windows[i].manifest.files
    requires Obeys(s, step, InManifest(path)) && Obeys(s, step, NotBy(s.windows[i].manifest.owner))
    ensures i in Next(s, step).windows && Next(s, step).windows[i] == s.windows[i]
    ensures Content(Next(s, step), path) == Content(s, path)
    ensures Ticks(Next(s, step).log, path) == Ticks(s.log, path)
  {
    if step.Write? || step.Increment? {
      NoSharedFile(s.table, s.windows[i].manifest, s.windows[step.i].manifest, path);
    }
    StepFrame(s, step, i, path);
    assert Ticks(Next(s, step).log, path) == Ticks(s.log, path) by { StepTicks(s, step, path); }
  }

  /** While a window is open, no other owner changes a file of its manifest or moves its clock, as long as that file is
      written only under manifests that name it. */
  lemma {:induction false} WindowIsIsolated(s: State, steps: seq<Step>, i: nat, path: string)
    requires Safe(s) && IsRun(s, steps) && i in s.windows && path in s.windows[i].manifest.files
    requires Obeyed(s, steps, LeasesKept) && Obeyed(s, steps, InManifest(path))
    requires Obeyed(s, steps, NotBy(s.windows[i].manifest.owner))
    ensures var r := After(s, steps);
      && i in r.windows && r.windows[i] == s.windows[i]
      && Content(r, path) == Content(s, path) && Ticks(r.log, path) == Ticks(s.log, path)
    decreases |steps|
  {
    if steps != [] {
      OthersStayOut(s, steps[0], i, path);
      StepIsSafe(s, steps[0]);
      WindowIsIsolated(Next(s, steps[0]), steps[1..], i, path);
    }
  }

  // ---- An allowed manifest is up to date ------------------------------------------------------------

  /** A file that differs from what it was at s0 has ticked since, or was written by a window still open. */
  ghost predicate Explained(s0: State, s: State, path: string) {
    || Content(s, path) == Content(s0, path)
    || Ticks(s.log, path) > Ticks(s0.log, path)
    || exists i :: i in s.windows && path in s.windows[i].wrote
  }

  /** The open windows that wrote the path name it in their manifests. */
  ghost predicate Covered(s: State, path: string) {
    forall i :: i in s.windows && path in s.windows[i].wrote ==> path in s.windows[i].manifest.files
  }

  /** A path written by an open window stays written by one, or has ticked. */
  lemma WrittenStays(s: State, step: Step, i: nat, path: string)
    requires Enabled(s, step) && i in s.windows && path in s.windows[i].wrote && path in s.windows[i].manifest.files
    requires Obeys(s, step, NoHalfWay(path))
    ensures var r := Next(s, step);
      (i in r.windows && path in r.windows[i].wrote) || Ticks(r.log, path) > Ticks(s.log, path)
  {
    if step.Increment? && step.i == i {
      StepTicks(s, step, path);
      assert path in multiset(s.windows[i].manifest.files);
    }
  }

  lemma StepExplained(s0: State, s: State, step: Step, path: string)
    requires Enabled(s, step) && Explained(s0, s, path) && Ticks(s.log, path) >= Ticks(s0.log, path) && Covered(s, path)
    requires Obeys(s, step, NoHalfWay(path)) && Obeys(s, step, InManifest(path))
    ensures var r := Next(s, step);
      Explained(s0, r, path) && Ticks(r.log, path) >= Ticks(s0.log, path) && Covered(r, path)
  {
    StepTicks(s, step, path);
    if i :| i in s.windows && path in s.windows[i].wrote {
      WrittenStays(s, step, i, path);
    } else if step.Write? && step.path == path {
      assert path in Next(s, step).windows[step.i].wrote;
    }
  }

  lemma {:induction false} RunExplained(s0: State, s: State, steps: seq<Step>, path: string)
    requires IsRun(s, steps) && Obeyed(s, steps, NoHalfWay(path)) && Obeyed(s, steps, InManifest(path))
    requires Explained(s0, s, path) && Ticks(s.log, path) >= Ticks(s0.log, path) && Covered(s, path)
    ensures var r := After(s, steps);
      Explained(s0, r, path) && Ticks(r.log, path) >= Ticks(s0.log, path) && Covered(r, path)
    decreases |steps|
  {
    if steps != [] {
      StepExplained(s0, s, steps[0], path);
      RunExplained(s0, Next(s, steps[0]), steps[1..], path);
    }
  }

  /** An owner that reads a file at s0 and its clock no later, and afterwards passes validation without drift,
      integrates against the content it read, whatever went on in between, as long as no window gave up after writing
      this file, it is written only under manifests that name it, and no open window of the same owner wrote it. */
  lemma AllowedIsFresh(s0: State, steps: seq<Step>, i: nat, m: Manifest, path: string)
    requires Safe(s0) && IsRun(s0, steps) && Enabled(After(s0, steps), Check(i, m)) && Covered(s0, path)
    requires Obeyed(s0, steps, LeasesKept) && Obeyed(s0, steps, NoHalfWay(path)) && Obeyed(s0, steps, InManifest(path))
    requires path in m.files && path in m.expected && m.expected[path] <= Ticks(s0.log, path)
    requires Drifted(After(s0, steps).log, m.expected) == {}
    requires forall j :: j in After(s0, steps).windows && After(s0, steps).windows[j].manifest.owner == m.owner ==>
      path !in After(s0, steps).windows[j].wrote
    ensures Content(After(s0, steps), path) == Content(s0, path)
  {
    var s := After(s0, steps);
    RunExplained(s0, s0, steps, path);
    RunIsSafe(s0, steps);
    assert Ticks(s.log, path) == m.expected[path] by { assert path !in Drifted(s.log, m.expected); }
    forall j | j in s.windows ensures path !in s.windows[j].wrote {
      if s.windows[j].manifest.owner != m.owner { NoSharedFile(s.table, m, s.windows[j].manifest, path); }
    }
  }

  /** An integration that gives up after writing changes a file without moving its clock: nothing is rolled back. */
  lemma HalfWayGoesUnseen(s: State, i: nat, path: string, content: string)
    requires i in s.windows && Content(s, path) != Some(content)
    ensures var steps := [Write(i, path, content), GiveUp(i)];
      && IsRun(s, steps) && !Obeyed(s, steps, NoHalfWay(path))
      && Content(After(s, steps), path) != Content(s, path)
      && After(s, steps).log == s.log && After(s, steps).windows == Without(s.windows, i)
  {
    var steps := [Write(i, path, content), GiveUp(i)];
    assert steps[1..] == [GiveUp(i)] && steps[1..][1..] == [];
    var s1 := Next(s, steps[0]);
    var s2 := Next(s1, steps[1..][0]);
    assert IsRun(s2, []) && After(s2, []) == s2;
    assert IsRun(s1, steps[1..]) && After(s1, steps[1..]) == s2;
    assert s2.windows == Without(s.windows, i);
  }

  /** Validation without drift means that no increment of an expected path happened since its clock was read. */
  lemma NoDriftNoTick(log: seq<Event>, more: seq<Event>, expected: map<string, int>)
    requires forall p :: p in expected ==> expected[p] == Ticks(log, p)
    ensures Drifted(log + more, expected) == {} <==>
      forall p, k :: p in expected && 0 <= k < |more| && more[k].FileClockInc? ==> p !in more[k].paths
  {
    forall p | p in expected
      ensures p in Drifted(log + more, expected) <==>
        exists k :: 0 <= k < |more| && more[k].FileClockInc? && p in more[k].paths
    {
      SameClockNoTick(log, more, p);
    }
  }
}
