/** The file clocks of heaven/fileclock.go and the manifest check of heaven/server.go. */
module FileClocks {
  import opened Strings
  import opened Leases

  /** How often the increment events of the log name the path. */
  function Ticks(log: seq<Event>, path: string): nat {
    if log == [] then 0
    else
      var last := log[|log| - 1];
      Ticks(log[..|log| - 1], path) + if last.FileClockInc? then multiset(last.paths)[path] else 0
  }

  /** fc.clocks[p], where a missing path reads as 0. */
  function Clock(clocks: map<string, nat>, path: string): nat {
    if path in clocks then clocks[path] else 0
  }

  /** The clocks after one more tick for each path listed, a path listed twice ticking twice. */
  function Bump(clocks: map<string, nat>, paths: seq<string>): map<string, nat> {
    if paths == [] then clocks
    else
      var rest, p := Bump(clocks, paths[..|paths| - 1]), paths[|paths| - 1];
      rest[p := Clock(rest, p) + 1]
  }

  lemma {:induction false} BumpTicks(clocks: map<string, nat>, paths: seq<string>, path: string)
    ensures Clock(Bump(clocks, paths), path) == Clock(clocks, path) + multiset(paths)[path]
  {
    if paths != [] {
      BumpTicks(clocks, paths[..|paths| - 1], path);
      assert paths == paths[..|paths| - 1] + [paths[|paths| - 1]];
    }
  }

  /** Every clock shows the number of ticks in the log. */
  ghost predicate InStep(clocks: map<string, nat>, log: seq<Event>) {
    forall p :: Clock(clocks, p) == Ticks(log, p)
  }

  lemma TicksSnoc(log: seq<Event>, e: Event, path: string)
    ensures Ticks(log + [e], path) == Ticks(log, path) + if e.FileClockInc? then multiset(e.paths)[path] else 0
  {
    assert (log + [e])[..|log|] == log;
  }

  lemma IncrementInStep(clocks: map<string, nat>, log: seq<Event>, paths: seq<string>)
    requires InStep(clocks, log)
    ensures InStep(Bump(clocks, paths), log + [FileClockInc(paths)])
  {
    forall p ensures Clock(Bump(clocks, paths), p) == Ticks(log + [FileClockInc(paths)], p) {
      BumpTicks(clocks, paths, p);
      TicksSnoc(log, FileClockInc(paths), p);
    }
  }

  lemma OtherEventInStep(clocks: map<string, nat>, log: seq<Event>, e: Event)
    requires InStep(clocks, log) && !e.FileClockInc?
    ensures InStep(clocks, log + [e])
  {
    forall p ensures Clock(clocks, p) == Ticks(log + [e], p) { TicksSnoc(log, e, p); }
  }

  lemma {:induction false} TicksConcat(log: seq<Event>, more: seq<Event>, path: string)
    ensures Ticks(log + more, path) == Ticks(log, path) + Ticks(more, path)
  {
    if more == [] {
      assert log + more == log;
    } else {
      var all := log + more;
      TicksConcat(log, more[..|more| - 1], path);
      assert all[..|all| - 1] == log + more[..|more| - 1];
    }
  }

  /** Equal clocks at two times mean that no increment in between named the path. */
  lemma {:induction false} SameClockNoTick(log: seq<Event>, more: seq<Event>, path: string)
    ensures Ticks(log + more, path) == Ticks(log, path) <==>
      forall k :: 0 <= k < |more| && more[k].FileClockInc? ==> path !in more[k].paths
  {
    TicksConcat(log, more, path);
    NoTicks(more, path);
  }

  lemma {:induction false} NoTicks(log: seq<Event>, path: string)
    ensures Ticks(log, path) == 0 <==> forall k :: 0 <= k < |log| && log[k].FileClockInc? ==> path !in log[k].paths
  {
    if log != [] {
      var init, last := log[..|log| - 1], log[|log| - 1];
      NoTicks(init, path);
      forall k | 0 <= k < |init| ensures init[k] == log[k] {}
      if Ticks(log, path) == 0 {
        forall k | 0 <= k < |log| && log[k].FileClockInc? ensures path !in log[k].paths {
          if k < |init| { assert init[k] == log[k]; }
        }
      }
    }
  }

  class FileClock {
    var clocks: map<string, nat>
    const events: EventLog

    ghost predicate Valid()
      reads this, events
    {
      InStep(clocks, events.events)
    }

    /** NewFileClock: a replay counts only the increment events. */
    constructor (events: EventLog)
      ensures this.events == events && Valid()
    {
      this.events := events;
      clocks := map[];
      new;
      for k := 0 to |events.events|
        invariant InStep(clocks, events.events[..k])
      {
        var e := events.events[k];
        assert events.events[..k + 1] == events.events[..k] + [e];
        if e.FileClockInc? {
          ghost var before := clocks;
          BumpAll(e.paths);
          IncrementInStep(before, events.events[..k], e.paths);
        } else {
          OtherEventInStep(clocks, events.events[..k], e);
        }
      }
      assert events.events[..|events.events|] == events.events;
    }

    method BumpAll(paths: seq<string>)
      modifies this`clocks
      ensures clocks == Bump(old(clocks), paths)
    {
      for i := 0 to |paths|
        invariant clocks == Bump(old(clocks), paths[..i])
      {
        assert paths[..i + 1][..i] == paths[..i];
        clocks := clocks[paths[i] := Clock(clocks, paths[i]) + 1];
      }
      assert paths[..|paths|] == paths;
    }

    method Increment(paths: seq<string>)
      requires Valid()
      modifies this, events
      ensures Valid()
      ensures events.events == old(events.events) + [FileClockInc(paths)]
      ensures clocks == Bump(old(clocks), paths)
    {
      IncrementInStep(clocks, events.events, paths);
      BumpAll(paths);
      events.Append(FileClockInc(paths));
    }

    method Get(paths: seq<string>) returns (result: map<string, nat>)
      requires Valid()
      ensures result.Keys == set p | p in paths
      ensures forall p :: p in result ==> result[p] == Ticks(events.events, p)
    {
      result := map[];
      for i := 0 to |paths|
        invariant result.Keys == set p | p in paths[..i]
        invariant forall p :: p in result ==> result[p] == Ticks(events.events, p)
      {
        assert paths[..i + 1] == paths[..i] + [paths[i]];
        result := result[paths[i] := Clock(clocks, paths[i])];
      }
      assert paths[..|paths|] == paths;
    }
  }

  // ---- Manifest validation ---------------------------------------------------------------------

  /** The scope keys of the given type that the owner does not hold, in order. */
  function Unheld(t: Table, owner: string, scopeType: string, values: seq<string>): seq<string> {
    if values == [] then []
    else
      var rest := Unheld(t, owner, scopeType, values[..|values| - 1]);
      var key := ScopeKey(scopeType, values[|values| - 1]);
      if Holds(t, owner, key) then rest else rest + [key]
  }

  lemma {:induction false} UnheldNothing(t: Table, owner: string, scopeType: string, values: seq<string>)
    ensures Unheld(t, owner, scopeType, values) == [] <==>
      forall k :: 0 <= k < |values| ==> Holds(t, owner, ScopeKey(scopeType, values[k]))
  {
    if values != [] {
      var init := values[..|values| - 1];
      UnheldNothing(t, owner, scopeType, init);
      forall k | 0 <= k < |init| ensures init[k] == values[k] {}
      if forall k :: 0 <= k < |init| ==> Holds(t, owner, ScopeKey(scopeType, init[k])) {
        forall k | 0 <= k < |init| ensures Holds(t, owner, ScopeKey(scopeType, values[k])) {
          assert init[k] == values[k];
        }
      }
    }
  }

  /** The keys listed are those of the values whose scopes the owner does not hold, in the order of the values, each as
      often as its value: `at` says from which value each one comes. */
  lemma {:induction false} UnheldAre(t: Table, owner: string, scopeType: string, values: seq<string>)
    returns (at: seq<nat>)
    ensures |at| == |Unheld(t, owner, scopeType, values)|
    ensures forall n :: 0 <= n < |at| ==>
        at[n] < |values| && Unheld(t, owner, scopeType, values)[n] == ScopeKey(scopeType, values[at[n]])
    ensures forall m, n :: 0 <= m < n < |at| ==> at[m] < at[n]
    ensures forall k :: 0 <= k < |values| ==> (k in at <==> !Holds(t, owner, ScopeKey(scopeType, values[k])))
  {
    at := [];
    if values != [] {
      var last := |values| - 1;
      at := UnheldAre(t, owner, scopeType, values[..last]);
      if !Holds(t, owner, ScopeKey(scopeType, values[last])) { at := at + [last]; }
    }
  }

  /** The expected paths whose clock has moved. The code lists them in the order of a map iteration. */
  function Drifted(log: seq<Event>, expected: map<string, int>): set<string> {
    set p | p in expected && Ticks(log, p) != expected[p]
  }

  datatype Manifest = Manifest(owner: string, symbols: seq<string>, files: seq<string>, expected: map<string, int>)

  datatype Verdict = Verdict(allowed: bool, missingLeases: seq<string>, clockDrift: set<string>)

  function Missing(t: Table, m: Manifest): seq<string> {
    Unheld(t, m.owner, "symbol", m.symbols) + Unheld(t, m.owner, "file", m.files)
  }

  method UnheldScopes(leases: LeaseManager, owner: string, scopeType: string, values: seq<string>)
    returns (keys: seq<string>)
    ensures keys == Unheld(leases.View(), owner, scopeType, values)
  {
    keys := [];
    for i := 0 to |values|
      invariant keys == Unheld(leases.View(), owner, scopeType, values[..i])
    {
      assert values[..i + 1][..i] == values[..i];
      var held := leases.OwnerHoldsScope(owner, scopeType, values[i]);
      if !held { keys := keys + [ScopeKey(scopeType, values[i])]; }
    }
    assert values[..|values|] == values;
  }

  /** handleValidateManifest; None is the answer to a request without an owner. */
  method ValidateManifest(leases: LeaseManager, clock: FileClock, m: Manifest) returns (r: Option<Verdict>)
    requires clock.Valid()
    ensures r.None? <==> m.owner == ""
    ensures r.Some? ==>
      r.value.missingLeases
        == Unheld(leases.View(), m.owner, "symbol", m.symbols) + Unheld(leases.View(), m.owner, "file", m.files)
    ensures r.Some? ==> forall p ::
        p in r.value.clockDrift <==> p in m.expected && Ticks(clock.events.events, p) != m.expected[p]
    ensures r.Some? ==> r.value.missingLeases == Missing(leases.View(), m)
    ensures r.Some? ==> r.value.clockDrift == Drifted(clock.events.events, m.expected)
    ensures r.Some? ==> (r.value.allowed <==> r.value.missingLeases == [] && r.value.clockDrift == {})
  {
    if m.owner == "" { return None; }
    var symbols := UnheldScopes(leases, m.owner, "symbol", m.symbols);
    var files := UnheldScopes(leases, m.owner, "file", m.files);
    var missing := symbols + files;
    var drift: set<string> := {};
    var todo := m.expected.Keys;
    while todo != {}
      invariant todo <= m.expected.Keys
      invariant drift == set p | p in m.expected && p !in todo && Ticks(clock.events.events, p) != m.expected[p]
      decreases todo
    {
      var p :| p in todo;
      todo := todo - {p};
      var current := clock.Get([p]);
      if current[p] != m.expected[p] { drift := drift + {p}; }
    }
    r := Some(Verdict(|missing| == 0 && |drift| == 0, missing, drift));
  }
}
