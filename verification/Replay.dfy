/** Recording and replaying provider calls (god/recorder.go). */
module Replay {
  import opened Strings

  /** A mission pack: its mission and its JSON text. */
  datatype Pack = Pack(mission: string, text: string)

  datatype Entry = Entry(mission: string, turn: int, packHash: string, response: string)

  // ---- Keys --------------------------------------------------------------------------------

  function ReplayKey(mission: string, turn: int): string {
    mission + ":" + IntText(turn)
  }

  lemma DigitsHaveNoSign(n: nat)
    ensures NatText(n)[0] != '-'
  {
    assert IsDigit(NatText(n)[0]);
  }

  lemma IntTextInjective(m: int, n: int)
    requires IntText(m) == IntText(n)
    ensures m == n
  {
    if m < 0 && n < 0 {
      assert IntText(m)[1..] == NatText(-m) && IntText(n)[1..] == NatText(-n);
      NatTextInjective(-m, -n);
    } else if m >= 0 && n >= 0 {
      NatTextInjective(m, n);
    } else {
      DigitsHaveNoSign(if m < 0 then n else m);
    }
  }

  lemma NoColon(n: int)
    ensures ':' !in IntText(n)
  {
    var s := NatText(if n < 0 then -n else n);
    assert forall k :: 0 <= k < |s| ==> IsDigit(s[k]);
  }

  /** The last ':' of a key is the one before the turn. */
  lemma LongerMissionDiffers(m: string, t: int, n: string, u: int)
    requires |m| < |n|
    ensures ReplayKey(m, t) != ReplayKey(n, u)
  {
    var key, other := ReplayKey(m, t), ReplayKey(n, u);
    NoColon(t);
    assert other[|n|] == ':';
    if |n| < |key| { assert key[|n|] == IntText(t)[|n| - |m| - 1]; }
  }

  /** Keys of different missions or turns differ, even when a mission ID holds ':' itself. */
  lemma KeyInjective(m: string, t: int, n: string, u: int)
    ensures ReplayKey(m, t) == ReplayKey(n, u) <==> m == n && t == u
  {
    if |m| < |n| {
      LongerMissionDiffers(m, t, n, u);
    } else if |n| < |m| {
      LongerMissionDiffers(n, u, m, t);
    } else if ReplayKey(m, t) == ReplayKey(n, u) {
      var key := ReplayKey(m, t);
      assert m == key[..|m|] && IntText(t) == key[|m| + 1..];
      assert n == key[..|m|] && IntText(u) == key[|m| + 1..];
      IntTextInjective(t, u);
    }
  }

  // ---- Looking entries up ----------------------------------------------------------------------

  /** The response of the last entry for a turn of a mission. */
  function LastOfTurn(entries: seq<Entry>, mission: string, turn: int): Option<string> {
    if entries == [] then None
    else
      var e := entries[|entries| - 1];
      if e.mission == mission && e.turn == turn then Some(e.response)
      else LastOfTurn(entries[..|entries| - 1], mission, turn)
  }

  /** The response of the last entry for a pack hash. */
  function LastOfHash(entries: seq<Entry>, packHash: string): Option<string> {
    if entries == [] then None
    else
      var e := entries[|entries| - 1];
      if e.packHash == packHash then Some(e.response) else LastOfHash(entries[..|entries| - 1], packHash)
  }

  /** The responses of a mission, in the order of the entries. */
  function OfMission(entries: seq<Entry>, mission: string): seq<string> {
    if entries == [] then []
    else
      var e, before := entries[|entries| - 1], OfMission(entries[..|entries| - 1], mission);
      if e.mission == mission then before + [e.response] else before
  }

  /** The lookup chain: the turn, then the hash, then the mission. */
  function Lookup(entries: seq<Entry>, mission: string, packHash: string, turn: nat): Option<string> {
    var atTurn, atHash := LastOfTurn(entries, mission, turn), LastOfHash(entries, packHash);
    var others := OfMission(entries, mission);
    if atTurn.Some? then atTurn
    else if atHash.Some? then atHash
    else if others == [] then None
    else Some(others[if turn < |others| then turn else 0])
  }

  lemma {:induction false} TurnIsOfMission(entries: seq<Entry>, mission: string, turn: int)
    ensures LastOfTurn(entries, mission, turn).Some? ==> OfMission(entries, mission) != []
  {
    if entries != [] { TurnIsOfMission(entries[..|entries| - 1], mission, turn); }
  }

  lemma {:induction false} OfMissionIff(entries: seq<Entry>, mission: string)
    ensures OfMission(entries, mission) != [] <==> exists k :: 0 <= k < |entries| && entries[k].mission == mission
  {
    if entries != [] {
      var rest := entries[..|entries| - 1];
      OfMissionIff(rest, mission);
      assert forall k :: 0 <= k < |rest| ==> rest[k] == entries[k];
      if exists k :: 0 <= k < |rest| && rest[k].mission == mission {
        var k :| 0 <= k < |rest| && rest[k].mission == mission;
        assert entries[k].mission == mission;
      }
    }
  }

  lemma {:induction false} LastOfHashIff(entries: seq<Entry>, packHash: string)
    ensures LastOfHash(entries, packHash).Some? <==> exists k :: 0 <= k < |entries| && entries[k].packHash == packHash
  {
    if entries != [] {
      var rest := entries[..|entries| - 1];
      LastOfHashIff(rest, packHash);
      assert forall k :: 0 <= k < |rest| ==> rest[k] == entries[k];
      if exists k :: 0 <= k < |rest| && rest[k].packHash == packHash {
        var k :| 0 <= k < |rest| && rest[k].packHash == packHash;
        assert entries[k].packHash == packHash;
      }
    }
  }

  /** Replay has no answer exactly when neither the mission nor the hash was ever recorded. */
  lemma LookupFails(entries: seq<Entry>, mission: string, packHash: string, turn: nat)
    ensures Lookup(entries, mission, packHash, turn).None?
      <==> forall k :: 0 <= k < |entries| ==> entries[k].mission != mission && entries[k].packHash != packHash
  {
    TurnIsOfMission(entries, mission, turn);
    OfMissionIff(entries, mission);
    LastOfHashIff(entries, packHash);
  }

  /** Entry k is the last one for the turn of the mission. */
  predicate LastTurnAt(entries: seq<Entry>, mission: string, turn: int, k: nat) {
    && k < |entries| && entries[k].mission == mission && entries[k].turn == turn
    && forall l :: k < l < |entries| ==> !(entries[l].mission == mission && entries[l].turn == turn)
  }

  /** Entry k is the last one for the pack hash. */
  predicate LastHashAt(entries: seq<Entry>, packHash: string, k: nat) {
    && k < |entries| && entries[k].packHash == packHash
    && forall l :: k < l < |entries| ==> entries[l].packHash != packHash
  }

  predicate TurnRecorded(entries: seq<Entry>, mission: string, turn: int) {
    exists k :: 0 <= k < |entries| && entries[k].mission == mission && entries[k].turn == turn
  }

  predicate HashRecorded(entries: seq<Entry>, packHash: string) {
    exists k :: 0 <= k < |entries| && entries[k].packHash == packHash
  }

  lemma {:induction false} TurnAnswer(entries: seq<Entry>, mission: string, turn: int) returns (k: nat)
    ensures LastOfTurn(entries, mission, turn).Some? <==> TurnRecorded(entries, mission, turn)
    ensures TurnRecorded(entries, mission, turn) ==>
        LastTurnAt(entries, mission, turn, k) && LastOfTurn(entries, mission, turn) == Some(entries[k].response)
  {
    k := 0;
    if entries != [] {
      var last := |entries| - 1;
      var init := entries[..last];
      assert forall l :: 0 <= l < last ==> init[l] == entries[l];
      k := TurnAnswer(init, mission, turn);
      if entries[last].mission == mission && entries[last].turn == turn { k := last; }
    }
  }

  lemma {:induction false} HashAnswer(entries: seq<Entry>, packHash: string) returns (k: nat)
    ensures LastOfHash(entries, packHash).Some? <==> HashRecorded(entries, packHash)
    ensures HashRecorded(entries, packHash) ==>
        LastHashAt(entries, packHash, k) && LastOfHash(entries, packHash) == Some(entries[k].response)
  {
    k := 0;
    if entries != [] {
      var last := |entries| - 1;
      var init := entries[..last];
      assert forall l :: 0 <= l < last ==> init[l] == entries[l];
      k := HashAnswer(init, packHash);
      if entries[last].packHash == packHash { k := last; }
    }
  }

  /** The responses of a mission are those of its entries, in their order: `at` says of which entry each one is. */
  lemma {:induction false} OfMissionAt(entries: seq<Entry>, mission: string) returns (at: seq<nat>)
    ensures |at| == |OfMission(entries, mission)|
    ensures forall n :: 0 <= n < |at| ==>
        at[n] < |entries| && OfMission(entries, mission)[n] == entries[at[n]].response
    ensures forall m, n :: 0 <= m < n < |at| ==> at[m] < at[n]
    ensures forall k :: 0 <= k < |entries| ==> (k in at <==> entries[k].mission == mission)
  {
    at := [];
    if entries != [] {
      var last := |entries| - 1;
      at := OfMissionAt(entries[..last], mission);
      if entries[last].mission == mission { at := at + [last]; }
    }
  }

  /** The order of the lookup: the last entry for the turn, if there is one; else the last entry for the hash; else, of
      the mission's responses, the one as many entries in as the mission had calls before, or the first one. */
  lemma LookupMeaning(entries: seq<Entry>, mission: string, packHash: string, turn: nat)
    ensures var r, others := Lookup(entries, mission, packHash, turn), OfMission(entries, mission);
      if TurnRecorded(entries, mission, turn) then
        exists k: nat :: LastTurnAt(entries, mission, turn, k) && r == Some(entries[k].response)
      else if HashRecorded(entries, packHash) then
        exists k: nat :: LastHashAt(entries, packHash, k) && r == Some(entries[k].response)
      else
        r == if turn < |others| then Some(others[turn]) else if others != [] then Some(others[0]) else None
  {
    var _ := TurnAnswer(entries, mission, turn);
    var _ := HashAnswer(entries, packHash);
  }

  // ---- Counting calls ---------------------------------------------------------------------------

  /** The number of calls for a mission. */
  function Count(packs: seq<Pack>, mission: string): nat {
    if packs == [] then 0
    else Count(packs[..|packs| - 1], mission) + (if packs[|packs| - 1].mission == mission then 1 else 0)
  }

  function TurnOf(packs: seq<Pack>, c: nat): nat
    requires c < |packs|
  {
    Count(packs[..c], packs[c].mission)
  }

  lemma {:induction false} CountGrows(packs: seq<Pack>, c: nat, mission: string)
    requires c <= |packs|
    ensures Count(packs[..c], mission) <= Count(packs, mission)
    ensures c < |packs| && packs[c].mission == mission ==> Count(packs[..c], mission) < Count(packs, mission)
    decreases |packs|
  {
    var last := |packs| - 1;
    if c == |packs| {
      assert packs[..c] == packs;
    } else {
      CountGrows(packs[..last], c, mission);
      assert packs[..last][..c] == packs[..c];
    }
  }

  /** Two calls of one mission never share a turn. */
  lemma TurnsDistinct(packs: seq<Pack>, c: nat, d: nat)
    requires c < |packs| && d < |packs| && packs[c].mission == packs[d].mission
    ensures TurnOf(packs, c) == TurnOf(packs, d) <==> c == d
  {
    if c < d {
      CountGrows(packs[..d], c, packs[c].mission);
      assert packs[..d][..c] == packs[..c];
    } else if d < c {
      CountGrows(packs[..c], d, packs[c].mission);
      assert packs[..c][..d] == packs[..d];
    }
  }

  function Next(turns: map<string, nat>, mission: string): nat {
    if mission in turns then turns[mission] else 0
  }

  /** A turn counter agrees with the calls made so far. */
  ghost predicate Counts(turns: map<string, nat>, packs: seq<Pack>) {
    forall m: string :: Next(turns, m) == Count(packs, m)
  }

  lemma CountsNext(turns: map<string, nat>, packs: seq<Pack>, p: Pack)
    requires Counts(turns, packs)
    ensures Counts(turns[p.mission := Next(turns, p.mission) + 1], packs + [p])
  {
    var more := turns[p.mission := Next(turns, p.mission) + 1];
    forall m: string ensures Next(more, m) == Count(packs + [p], m) {
      assert (packs + [p])[..|packs|] == packs;
      assert Next(turns, m) == Count(packs, m);
    }
  }

  // ---- Recording -----------------------------------------------------------------------------------

  /** The two critical sections of a call: it takes its turn, and some time later it appends its entry.
      A call whose provider fails has no End. */
  datatype Event = Begin(pack: Pack) | End(call: nat, response: string)

  /** The packs of the calls, in the order in which they took their turns. */
  function Begun(log: seq<Event>): seq<Pack> {
    if log == [] then []
    else
      var e, before := log[|log| - 1], Begun(log[..|log| - 1]);
      if e.Begin? then before + [e.pack] else before
  }

  /** What the provider answered to a call. */
  function Answer(log: seq<Event>, c: nat): Option<string> {
    if log == [] then None
    else
      var e := log[|log| - 1];
      if e.End? && e.call == c then Some(e.response) else Answer(log[..|log| - 1], c)
  }

  /** Calls end after they begin, at most once, in any order. */
  predicate Legal(log: seq<Event>) {
    log == []
    || (var e, before := log[|log| - 1], log[..|log| - 1];
        Legal(before) && (e.End? ==> e.call < |Begun(before)| && Answer(before, e.call).None?))
  }

  function EntryOf(packs: seq<Pack>, c: nat, response: string, hash: string -> string): Entry
    requires c < |packs|
  {
    Entry(packs[c].mission, TurnOf(packs, c), hash(packs[c].text), response)
  }

  /** What a run records: one entry for each End, in the order of the Ends. */
  function Recorded(log: seq<Event>, hash: string -> string): seq<Entry>
    requires Legal(log)
  {
    if log == [] then []
    else
      var e, before := log[|log| - 1], log[..|log| - 1];
      if e.Begin? then Recorded(before, hash)
      else Recorded(before, hash) + [EntryOf(Begun(before), e.call, e.response, hash)]
  }

  /** What one more event changes. */
  lemma OneMore(before: seq<Event>, e: Event, hash: string -> string)
    requires Legal(before) && (e.End? ==> e.call < |Begun(before)| && Answer(before, e.call).None?)
    ensures Legal(before + [e])
    ensures Begun(before + [e]) == Begun(before) + if e.Begin? then [e.pack] else []
    ensures forall c: nat {:trigger Answer(before + [e], c)} ::
        Answer(before + [e], c) == if e.End? && e.call == c then Some(e.response) else Answer(before, c)
    ensures Recorded(before + [e], hash)
      == Recorded(before, hash) + if e.Begin? then [] else [EntryOf(Begun(before), e.call, e.response, hash)]
  {
    assert (before + [e])[..|before|] == before;
  }

  class RecordingProvider {
    const hash: string -> string
    var turnCounter: map<string, nat>
    var entries: seq<Entry>
    ghost var log: seq<Event>

    /** The counters and the entries are those of the run so far. */
    ghost predicate Valid()
      reads this
    {
      Legal(log) && Counts(turnCounter, Begun(log)) && entries == Recorded(log, hash)
    }

    constructor (hash: string -> string)
      ensures Valid() && log == [] && this.hash == hash
    {
      this.hash := hash;
      turnCounter, entries, log := map[], [], [];
    }

    /** Send up to the call of the inner provider: takes the next turn of the mission. */
    method TakeTurn(pack: Pack) returns (turn: nat)
      requires Valid()
      modifies this
      ensures Valid() && log == old(log) + [Begin(pack)]
      ensures Begun(log) == old(Begun(log)) + [pack] && turn == TurnOf(Begun(log), |Begun(log)| - 1)
    {
      ghost var packs := Begun(log);
      assert (packs + [pack])[..|packs|] == packs;
      CountsNext(turnCounter, packs, pack);
      OneMore(log, Begin(pack), hash);
      turn := if pack.mission in turnCounter then turnCounter[pack.mission] else 0;
      turnCounter := turnCounter[pack.mission := turn + 1];
      log := log + [Begin(pack)];
    }

    /** Send after the inner provider answered: appends the entry of a call that took its turn before. */
    method Append(pack: Pack, turn: nat, response: string, ghost call: nat)
      requires Valid() && call < |Begun(log)| && Answer(log, call).None?
      requires pack == Begun(log)[call] && turn == TurnOf(Begun(log), call)
      modifies this
      ensures Valid() && log == old(log) + [End(call, response)]
      ensures entries == old(entries) + [Entry(pack.mission, turn, hash(pack.text), response)]
    {
      OneMore(log, End(call, response), hash);
      entries := entries + [Entry(pack.mission, turn, hash(pack.text), response)];
      log := log + [End(call, response)];
    }
  }

  lemma {:induction false} UnbegunUnanswered(log: seq<Event>, c: nat)
    requires Legal(log) && c >= |Begun(log)|
    ensures Answer(log, c).None?
  {
    if log != [] { UnbegunUnanswered(log[..|log| - 1], c); }
  }

  lemma LastOfTurnSnoc(entries: seq<Entry>, e: Entry, mission: string, turn: int)
    ensures LastOfTurn(entries + [e], mission, turn)
      == if e.mission == mission && e.turn == turn then Some(e.response) else LastOfTurn(entries, mission, turn)
  {
    assert (entries + [e])[..|entries|] == entries;
  }

  /** No entry has a turn that was never taken. */
  lemma {:induction false} UntakenUnrecorded(log: seq<Event>, hash: string -> string, mission: string, turn: int)
    requires Legal(log) && !(0 <= turn < Count(Begun(log), mission))
    ensures LastOfTurn(Recorded(log, hash), mission, turn).None?
  {
    if log != [] {
      var e, before := log[|log| - 1], log[..|log| - 1];
      var packs := Begun(before);
      if e.Begin? {
        assert (packs + [e.pack])[..|packs|] == packs;
        UntakenUnrecorded(before, hash, mission, turn);
      } else {
        UntakenUnrecorded(before, hash, mission, turn);
        LastOfTurnSnoc(Recorded(before, hash), EntryOf(packs, e.call, e.response, hash), mission, turn);
        CountGrows(packs, e.call, packs[e.call].mission);
      }
    }
  }

  /** The recorded response of a call's turn is what the provider answered to that call, if it answered. */
  lemma {:induction false} AnswerIsRecorded(log: seq<Event>, hash: string -> string, c: nat)
    requires Legal(log) && c < |Begun(log)|
    ensures LastOfTurn(Recorded(log, hash), Begun(log)[c].mission, TurnOf(Begun(log), c)) == Answer(log, c)
  {
    var e, before := log[|log| - 1], log[..|log| - 1];
    var packs := Begun(before);
    if e.Begin? {
      assert Begun(log) == packs + [e.pack] && Begun(log)[..c] == packs[..c];
      if c < |packs| {
        AnswerIsRecorded(before, hash, c);
      } else {
        UnbegunUnanswered(before, c);
        assert packs[..c] == packs;
        UntakenUnrecorded(before, hash, e.pack.mission, TurnOf(Begun(log), c));
      }
    } else {
      AnswerIsRecorded(before, hash, c);
      var entry := EntryOf(packs, e.call, e.response, hash);
      LastOfTurnSnoc(Recorded(before, hash), entry, packs[c].mission, TurnOf(packs, c));
      if packs[c].mission == packs[e.call].mission { TurnsDistinct(packs, c, e.call); }
    }
  }

  // ---- Replaying -----------------------------------------------------------------------------------

  function Get<V>(m: map<string, V>, key: string): Option<V> {
    if key in m then Some(m[key]) else None
  }

  /** The tables answer as the entries do. */
  ghost predicate TableOfTurns(byTurn: map<string, string>, entries: seq<Entry>) {
    forall m: string, t: int :: Get(byTurn, ReplayKey(m, t)) == LastOfTurn(entries, m, t)
  }

  ghost predicate TableOfHashes(byHash: map<string, string>, entries: seq<Entry>) {
    forall h: string :: Get(byHash, h) == LastOfHash(entries, h)
  }

  function Responses(byMission: map<string, seq<string>>, m: string): seq<string> {
    if m in byMission then byMission[m] else []
  }

  ghost predicate TableOfMissions(byMission: map<string, seq<string>>, entries: seq<Entry>) {
    forall m: string :: Responses(byMission, m) == OfMission(entries, m)
  }

  lemma TurnsExtend(byTurn: map<string, string>, entries: seq<Entry>, e: Entry)
    requires TableOfTurns(byTurn, entries)
    ensures TableOfTurns(byTurn[ReplayKey(e.mission, e.turn) := e.response], entries + [e])
  {
    var after := byTurn[ReplayKey(e.mission, e.turn) := e.response];
    forall m: string, t: int ensures Get(after, ReplayKey(m, t)) == LastOfTurn(entries + [e], m, t)
    {
      KeyInjective(m, t, e.mission, e.turn);
      LastOfTurnSnoc(entries, e, m, t);
    }
  }

  lemma HashesExtend(byHash: map<string, string>, entries: seq<Entry>, e: Entry)
    requires TableOfHashes(byHash, entries)
    ensures TableOfHashes(byHash[e.packHash := e.response], entries + [e])
  {
    forall h: string ensures Get(byHash[e.packHash := e.response], h) == LastOfHash(entries + [e], h) {
      assert (entries + [e])[..|entries|] == entries;
      assert Get(byHash, h) == LastOfHash(entries, h);
    }
  }

  lemma MissionsExtend(byMission: map<string, seq<string>>, entries: seq<Entry>, e: Entry)
    requires TableOfMissions(byMission, entries)
    ensures TableOfMissions(byMission[e.mission := Responses(byMission, e.mission) + [e.response]], entries + [e])
  {
    var more := byMission[e.mission := Responses(byMission, e.mission) + [e.response]];
    forall m: string ensures Responses(more, m) == OfMission(entries + [e], m) {
      assert (entries + [e])[..|entries|] == entries;
      assert Responses(byMission, m) == OfMission(entries, m);
    }
  }

  class ReplayProvider {
    const hash: string -> string
    var byTurn: map<string, string>
    var byHash: map<string, string>
    var byMission: map<string, seq<string>>
    var turnCounter: map<string, nat>
    var callCount: nat
    ghost var entries: seq<Entry>
    ghost var sent: seq<Pack>

    ghost predicate Valid()
      reads this
    {
      && TableOfTurns(byTurn, entries) && TableOfHashes(byHash, entries) && TableOfMissions(byMission, entries)
      && Counts(turnCounter, sent) && callCount == |sent|
    }

    constructor (entries: seq<Entry>, hash: string -> string)
      ensures Valid() && this.entries == entries && this.hash == hash && sent == []
    {
      this.hash := hash;
      byTurn, byHash, byMission := map[], map[], map[];
      turnCounter, callCount, sent := map[], 0, [];
      this.entries := entries;
      new;
      for k := 0 to |entries|
        invariant this.entries == entries && sent == [] && turnCounter == map[] && callCount == 0
        invariant TableOfTurns(byTurn, entries[..k])
        invariant TableOfHashes(byHash, entries[..k])
        invariant TableOfMissions(byMission, entries[..k])
      {
        var e := entries[k];
        assert entries[..k + 1] == entries[..k] + [e];
        HashesExtend(byHash, entries[..k], e);
        byHash := byHash[e.packHash := e.response];
        MissionsExtend(byMission, entries[..k], e);
        byMission := byMission[e.mission := Responses(byMission, e.mission) + [e.response]];
        TurnsExtend(byTurn, entries[..k], e);
        byTurn := byTurn[ReplayKey(e.mission, e.turn) := e.response];
      }
      assert entries[..|entries|] == entries;
    }

    /** Answers from the recording with the turn that the call has among all calls sent so far. */
    method Send(pack: Pack) returns (r: Option<string>)
      requires Valid()
      modifies this
      ensures Valid() && entries == old(entries) && sent == old(sent) + [pack]
      ensures r == Lookup(entries, pack.mission, hash(pack.text), TurnOf(sent, |sent| - 1))
    {
      callCount := callCount + 1;
      var turn := if pack.mission in turnCounter then turnCounter[pack.mission] else 0;
      CountsNext(turnCounter, sent, pack);
      turnCounter := turnCounter[pack.mission := turn + 1];
      sent := sent + [pack];
      assert sent[..|sent| - 1] == old(sent);
      var key := ReplayKey(pack.mission, turn);
      assert Get(byTurn, key) == LastOfTurn(entries, pack.mission, turn);
      if key in byTurn { return Some(byTurn[key]); }
      var packHash := hash(pack.text);
      assert Get(byHash, packHash) == LastOfHash(entries, packHash);
      if packHash in byHash { return Some(byHash[packHash]); }
      assert Responses(byMission, pack.mission) == OfMission(entries, pack.mission);
      if pack.mission in byMission && |byMission[pack.mission]| > 0 {
        var responses := byMission[pack.mission];
        var idx := turn;
        if idx >= |responses| { idx := 0; }
        return Some(responses[idx]);
      }
      return None;
    }
  }

  // ---- Replay gives back the recording -----------------------------------------------------------------

  /** The answers of a replay of packs sent in some order. */
  function Replayed(entries: seq<Entry>, sent: seq<Pack>, hash: string -> string, i: nat): Option<string>
    requires i < |sent|
  {
    Lookup(entries, sent[i].mission, hash(sent[i].text), TurnOf(sent, i))
  }

  /** Whatever the interleaving of the recorded calls, the order in which they ended and which of them failed,
      and whatever the interleaving and the packs of the replayed calls: the k-th call of a mission is answered as the
      recorded k-th call was, exactly when that call was answered or no entry at all has its mission or its hash. */
  lemma ReplayIsFaithful(log: seq<Event>, recordHash: string -> string, sent: seq<Pack>, hash: string -> string,
                         c: nat, i: nat)
    requires Legal(log) && c < |Begun(log)| && i < |sent|
    requires sent[i].mission == Begun(log)[c].mission && TurnOf(sent, i) == TurnOf(Begun(log), c)
    ensures var entries := Recorded(log, recordHash);
      Replayed(entries, sent, hash, i) == Answer(log, c)
      <==> Answer(log, c).Some? || forall k :: 0 <= k < |entries| ==>
          entries[k].mission != sent[i].mission && entries[k].packHash != hash(sent[i].text)
  {
    AnswerIsRecorded(log, recordHash, c);
    LookupFails(Recorded(log, recordHash), sent[i].mission, hash(sent[i].text), TurnOf(sent, i));
  }

  // ---- Calls that failed while recording --------------------------------------------------------------

  /** The call was answered, and belongs to the mission or had a pack with that hash. */
  predicate Tells(log: seq<Event>, recordHash: string -> string, d: nat, mission: string, packHash: string) {
    && d < |Begun(log)| && Answer(log, d).Some?
    && (Begun(log)[d].mission == mission || recordHash(Begun(log)[d].text) == packHash)
  }

  ghost predicate Known(log: seq<Event>, recordHash: string -> string, mission: string, packHash: string) {
    exists d: nat :: Tells(log, recordHash, d, mission, packHash)
  }

  predicate Matches(e: Entry, mission: string, packHash: string) {
    e.mission == mission || e.packHash == packHash
  }

  ghost predicate Listed(entries: seq<Entry>, mission: string, packHash: string) {
    exists k :: 0 <= k < |entries| && Matches(entries[k], mission, packHash)
  }

  lemma ListedSnoc(entries: seq<Entry>, e: Entry, mission: string, packHash: string)
    ensures Listed(entries + [e], mission, packHash)
      <==> Listed(entries, mission, packHash) || Matches(e, mission, packHash)
  {
    var more := entries + [e];
    assert more[|entries|] == e;
    if Listed(entries, mission, packHash) {
      var k :| 0 <= k < |entries| && Matches(entries[k], mission, packHash);
      assert more[k] == entries[k];
    }
  }

  /** The entries know a mission or a hash exactly when an answered call does. */
  lemma {:induction false} ListedIffKnown(log: seq<Event>, recordHash: string -> string, mission: string,
                                          packHash: string)
    requires Legal(log)
    ensures Listed(Recorded(log, recordHash), mission, packHash) <==> Known(log, recordHash, mission, packHash)
  {
    if log != [] {
      var e, before := log[|log| - 1], log[..|log| - 1];
      var packs := Begun(before);
      ListedIffKnown(before, recordHash, mission, packHash);
      if e.Begin? {
        UnbegunUnanswered(before, |packs|);
        forall d: nat
          ensures Tells(log, recordHash, d, mission, packHash) == Tells(before, recordHash, d, mission, packHash)
        {
        }
      } else {
        ListedSnoc(Recorded(before, recordHash), EntryOf(packs, e.call, e.response, recordHash), mission, packHash);
        forall d: nat
          ensures Tells(log, recordHash, d, mission, packHash)
            == (|| Tells(before, recordHash, d, mission, packHash)
                || (d == e.call && Matches(EntryOf(packs, d, e.response, recordHash), mission, packHash)))
        {
        }
      }
    }
  }

  /** A call that failed while recording is replayed with an answer exactly when some call of its mission, or some
      call with the hash of the replayed pack, was answered. */
  lemma FailureIsFilledIn(log: seq<Event>, recordHash: string -> string, sent: seq<Pack>, hash: string -> string,
                          c: nat, i: nat)
    requires Legal(log) && c < |Begun(log)| && i < |sent|
    requires sent[i].mission == Begun(log)[c].mission && TurnOf(sent, i) == TurnOf(Begun(log), c)
    requires Answer(log, c).None?
    ensures Replayed(Recorded(log, recordHash), sent, hash, i).Some?
      <==> Known(log, recordHash, sent[i].mission, hash(sent[i].text))
  {
    var entries := Recorded(log, recordHash);
    ReplayIsFaithful(log, recordHash, sent, hash, c, i);
    ListedIffKnown(log, recordHash, sent[i].mission, hash(sent[i].text));
    if Listed(entries, sent[i].mission, hash(sent[i].text)) {
      var k :| 0 <= k < |entries| && Matches(entries[k], sent[i].mission, hash(sent[i].text));
      assert entries[k].mission == sent[i].mission || entries[k].packHash == hash(sent[i].text);
    } else {
      forall k | 0 <= k < |entries|
        ensures entries[k].mission != sent[i].mission && entries[k].packHash != hash(sent[i].text)
      {
        assert !Matches(entries[k], sent[i].mission, hash(sent[i].text));
      }
    }
  }

  // ---- Error-free recordings -----------------------------------------------------------------------------

  lemma {:induction false} CallAt(packs: seq<Pack>, mission: string, k: nat) returns (c: nat)
    requires k < Count(packs, mission)
    ensures c < |packs| && packs[c].mission == mission && TurnOf(packs, c) == k
  {
    var last := |packs| - 1;
    if packs[last].mission == mission && Count(packs[..last], mission) == k {
      c := last;
    } else {
      c := CallAt(packs[..last], mission, k);
      assert packs[..last][..c] == packs[..c];
    }
  }

  predicate ErrorFree(log: seq<Event>) {
    forall c: nat :: c < |Begun(log)| ==> Answer(log, c).Some?
  }

  /** After an error-free recording, every replayed call within the recorded number of its mission's calls has the
      answer to the recorded call with its mission and turn; there is exactly one. */
  lemma {:induction false} ErrorFreeReplay(log: seq<Event>, recordHash: string -> string,
                                           sent: seq<Pack>, hash: string -> string, i: nat)
    returns (c: nat)
    requires Legal(log) && ErrorFree(log) && i < |sent| && TurnOf(sent, i) < Count(Begun(log), sent[i].mission)
    ensures c < |Begun(log)| && Begun(log)[c].mission == sent[i].mission && TurnOf(Begun(log), c) == TurnOf(sent, i)
    ensures Answer(log, c).Some? && Replayed(Recorded(log, recordHash), sent, hash, i) == Answer(log, c)
    ensures forall d: nat | d < |Begun(log)| && Begun(log)[d].mission == sent[i].mission ::
        TurnOf(Begun(log), d) == TurnOf(sent, i) ==> d == c
  {
    c := CallAt(Begun(log), sent[i].mission, TurnOf(sent, i));
    ReplayIsFaithful(log, recordHash, sent, hash, c, i);
    forall d: nat
      | d < |Begun(log)| && Begun(log)[d].mission == sent[i].mission && TurnOf(Begun(log), d) == TurnOf(sent, i)
      ensures d == c
    {
      TurnsDistinct(Begun(log), c, d);
    }
  }

  lemma SecondTurn(p: Pack)
    ensures TurnOf([p], 0) == 0 && TurnOf([p, p], 1) == 1
  {
    assert [p, p][..1] == [p] && [p][..0] == [];
    assert Count([p], p.mission) == Count([], p.mission) + 1;
  }

  lemma TwoCallsFirstFailed(p: Pack, answer: string, hash: string -> string)
    ensures var log := [Begin(p)] + [Begin(p)] + [End(1, answer)];
      Legal(log) && Answer(log, 0).None? && Recorded(log, hash) == [Entry(p.mission, 1, hash(p.text), answer)]
  {
    OneMore([], Begin(p), hash);
    assert [] + [Begin(p)] == [Begin(p)];
    OneMore([Begin(p)], Begin(p), hash);
    OneMore([Begin(p)] + [Begin(p)], End(1, answer), hash);
    SecondTurn(p);
  }

  /** For instance, when the first of two calls failed and the second was answered, replaying the first gives the
      answer to the second. */
  lemma SecondAnswerFillsIn(p: Pack, answer: string, hash: string -> string)
    ensures var log := [Begin(p)] + [Begin(p)] + [End(1, answer)];
      Legal(log) && Answer(log, 0).None? && Replayed(Recorded(log, hash), [p], hash, 0) == Some(answer)
  {
    TwoCallsFirstFailed(p, answer, hash);
    var e := Entry(p.mission, 1, hash(p.text), answer);
    assert [p][..0] == [] && [e][..0] == [];
    SecondTurn(p);
    assert LastOfTurn([], p.mission, 0).None?;
    assert LastOfTurn([e], p.mission, 0).None? && LastOfHash([e], e.packHash) == Some(answer);
  }
}
