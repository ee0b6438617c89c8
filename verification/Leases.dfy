/** The lease table of heaven/leases.go, rebuilt from the event log of heaven/eventlog.go. */
module Leases {
  import opened Strings

  datatype Lease = Lease(id: string, owner: string, mission: string, scopeType: string, scopeValue: string,
                         issuedAt: string)

  datatype Scope = Scope(scopeType: string, scopeValue: string)

  /** Entries of the shared log; Other stands for every event the managers ignore. */
  datatype Event =
    | LeaseIssued(lease: Lease)
    | LeaseReleased(id: string)
    | FileClockInc(paths: seq<string>)
    | Other(kind: string)

  /** The two maps of the manager: lease id to lease, and scope key to lease id. */
  datatype Table = Table(leases: map<string, Lease>, scopes: map<string, string>)

  function ScopeKey(scopeType: string, scopeValue: string): string {
    scopeType + ":" + scopeValue
  }

  function KeyOf(lease: Lease): string { ScopeKey(lease.scopeType, lease.scopeValue) }

  /** Scope types without a colon, such as "file" and "symbol", give keys that determine the scope. */
  lemma {:induction false} ScopeKeyInjective(t: string, v: string, t': string, v': string)
    requires ':' !in t && ':' !in t' && ScopeKey(t, v) == ScopeKey(t', v')
    ensures t == t' && v == v'
  {
    var k := ScopeKey(t, v);
    SplitCons(t, v, ':');
    SplitCons(t', v', ':');
    assert Split(k, ':')[0] == t && Split(k, ':')[0] == t';
    assert v == k[|t| + 1..] && v' == k[|t| + 1..];
  }

  function Without<K, V>(m: map<K, V>, k: K): map<K, V> {
    map x | x in m && x != k :: m[x]
  }

  // ---- Replay ------------------------------------------------------------------------------

  /** The effect of one logged event on the table. */
  function Apply(t: Table, e: Event): Table {
    match e
    case LeaseIssued(lease) => Table(t.leases[lease.id := lease], t.scopes[KeyOf(lease) := lease.id])
    case LeaseReleased(id) =>
      if id in t.leases then Table(Without(t.leases, id), Without(t.scopes, KeyOf(t.leases[id]))) else t
    case _ => t
  }

  function Replay(log: seq<Event>): Table {
    if log == [] then Table(map[], map[]) else Apply(Replay(log[..|log| - 1]), log[|log| - 1])
  }

  lemma ReplaySnoc(log: seq<Event>, e: Event)
    ensures Replay(log + [e]) == Apply(Replay(log), e)
  {
    assert (log + [e])[..|log|] == log;
  }

  /** An event the manager may log at table t: it issues free scopes under unused ids and releases live leases. */
  predicate Legal(t: Table, e: Event) {
    match e
    case LeaseIssued(lease) => lease.id !in t.leases && KeyOf(lease) !in t.scopes
    case LeaseReleased(id) => id in t.leases
    case _ => true
  }

  predicate LegalLog(log: seq<Event>) {
    log == [] || (LegalLog(log[..|log| - 1]) && Legal(Replay(log[..|log| - 1]), log[|log| - 1]))
  }

  lemma LegalSnoc(log: seq<Event>, e: Event)
    requires LegalLog(log) && Legal(Replay(log), e)
    ensures LegalLog(log + [e])
  {
    assert (log + [e])[..|log|] == log;
  }

  lemma {:induction false} LegalPrefix(log: seq<Event>, n: nat)
    requires LegalLog(log) && n <= |log|
    ensures LegalLog(log[..n])
  {
    if n < |log| {
      LegalPrefix(log[..|log| - 1], n);
      assert log[..|log| - 1][..n] == log[..n];
    } else {
      assert log[..n] == log;
    }
  }

  /** The maps are inverse to each other. */
  ghost predicate Bijective(t: Table) {
    && (forall k :: k in t.scopes ==> t.scopes[k] in t.leases && KeyOf(t.leases[t.scopes[k]]) == k)
    && (forall id :: id in t.leases ==>
          && t.leases[id].id == id
          && KeyOf(t.leases[id]) in t.scopes
          && t.scopes[KeyOf(t.leases[id])] == id)
  }

  lemma {:induction false} ReplayIsBijective(log: seq<Event>)
    requires LegalLog(log)
    ensures Bijective(Replay(log))
  {
    if log != [] { ReplayIsBijective(log[..|log| - 1]); }
  }

  /** So is the table replayed from any prefix of the log. */
  lemma {:induction false} PrefixIsBijective(log: seq<Event>, n: nat)
    requires LegalLog(log) && n <= |log|
    ensures Bijective(Replay(log[..n]))
  {
    LegalPrefix(log, n);
    ReplayIsBijective(log[..n]);
  }

  // ---- The history of one scope --------------------------------------------------------------

  /** Whether the event, logged at table t, concerns the scope key. */
  predicate Concerns(t: Table, e: Event, key: string) {
    match e
    case LeaseIssued(lease) => KeyOf(lease) == key
    case LeaseReleased(id) => id in t.leases && KeyOf(t.leases[id]) == key
    case _ => false
  }

  function History(log: seq<Event>, key: string): seq<Event> {
    if log == [] then []
    else
      var init, last := log[..|log| - 1], log[|log| - 1];
      if Concerns(Replay(init), last, key) then History(init, key) + [last] else History(init, key)
  }

  predicate InTurn(h: seq<Event>, i: nat)
    requires i < |h|
  {
    if i % 2 == 0 then h[i].LeaseIssued?
    else h[i].LeaseReleased? && h[i - 1].LeaseIssued? && h[i].id == h[i - 1].lease.id
  }

  /** Issued and released in turn, each release naming the lease issued just before it. */
  predicate Alternates(h: seq<Event>) {
    forall i :: 0 <= i < |h| ==> InTurn(h, i)
  }

  lemma AlternatesSnoc(h: seq<Event>, e: Event)
    requires Alternates(h)
    requires if |h| % 2 == 0 then e.LeaseIssued? else
      e.LeaseReleased? && h[|h| - 1].LeaseIssued? && e.id == h[|h| - 1].lease.id
    ensures Alternates(h + [e])
  {
    forall i | 0 <= i < |h + [e]| ensures InTurn(h + [e], i) {
      if i < |h| { assert InTurn(h, i); }
    }
  }

  lemma {:induction false} HistoryAlternates(log: seq<Event>, key: string)
    requires LegalLog(log)
    ensures Alternates(History(log, key))
    ensures var h, t := History(log, key), Replay(log);
      && (key in t.scopes <==> |h| % 2 == 1)
      && (key in t.scopes ==> h[|h| - 1].LeaseIssued? && t.scopes[key] == h[|h| - 1].lease.id)
  {
    if log != [] {
      var init, last := log[..|log| - 1], log[|log| - 1];
      HistoryAlternates(init, key);
      ReplayIsBijective(init);
      if Concerns(Replay(init), last, key) { AlternatesSnoc(History(init, key), last); }
    }
  }

  // ---- Acquire and Release as functions --------------------------------------------------------

  predicate HeldByOther(t: Table, key: string, owner: string) {
    key in t.scopes && t.scopes[key] in t.leases && t.leases[t.scopes[key]].owner != owner
  }

  /** OwnerHoldsScope. */
  predicate Holds(t: Table, owner: string, key: string) {
    key in t.scopes && t.scopes[key] in t.leases && t.leases[t.scopes[key]].owner == owner
  }

  /** The live lease of a scope that someone holds. */
  function LeaseOf(t: Table, key: string): Lease
    requires key in t.scopes && t.scopes[key] in t.leases
  {
    t.leases[t.scopes[key]]
  }

  datatype Request = Request(owner: string, mission: string, scopes: seq<Scope>, now: string)

  /** The key of the i-th scope of a request. */
  function RequestKey(req: Request, i: nat): string
    requires i < |req.scopes|
  {
    ScopeKey(req.scopes[i].scopeType, req.scopes[i].scopeValue)
  }

  /** A grant in progress: the table and log as left, and the two answer lists. */
  datatype Grant = Grant(table: Table, log: seq<Event>, acquired: seq<Lease>, denied: seq<string>)

  /** One scope of a request, id being the one generated for it: the lease granted or already held, None when denied.
      A scope entry without its lease, on which the code would panic, never arises: see ReplayIsBijective. */
  function Decide(t: Table, log: seq<Event>, req: Request, scope: Scope, id: string)
    : (Table, seq<Event>, Option<Lease>)
  {
    var key := ScopeKey(scope.scopeType, scope.scopeValue);
    if key in t.scopes then
      if HeldByOther(t, key, req.owner) || t.scopes[key] !in t.leases then (t, log, None)
      else (t, log, Some(t.leases[t.scopes[key]]))
    else
      var lease := Lease(id, req.owner, req.mission, scope.scopeType, scope.scopeValue, req.now);
      (Apply(t, LeaseIssued(lease)), log + [LeaseIssued(lease)], Some(lease))
  }

  function GrantOne(g: Grant, req: Request, scope: Scope, id: string): Grant {
    var (table, log, lease) := Decide(g.table, g.log, req, scope, id);
    match lease
    case Some(l) => Grant(table, log, g.acquired + [l], g.denied)
    case None => Grant(table, log, g.acquired, g.denied + [ScopeKey(scope.scopeType, scope.scopeValue)])
  }

  /** The first n scopes of a request; ids[i] is the id generated for scope i. */
  function GrantAll(g: Grant, req: Request, ids: seq<string>, n: nat): Grant
    requires n <= |req.scopes| && |ids| == |req.scopes|
  {
    if n == 0 then g else GrantOne(GrantAll(g, req, ids, n - 1), req, req.scopes[n - 1], ids[n - 1])
  }

  /** Random ids: pairwise different and none in use. */
  predicate FreshIds(t: Table, ids: seq<string>) {
    && (forall i :: 0 <= i < |ids| ==> ids[i] !in t.leases)
    && (forall i, j :: 0 <= i < j < |ids| ==> ids[i] != ids[j])
  }

  function ReleaseOne(t: Table, log: seq<Event>, id: string): (Table, seq<Event>) {
    if id in t.leases then (Apply(t, LeaseReleased(id)), log + [LeaseReleased(id)]) else (t, log)
  }

  function ReleaseAll(t: Table, log: seq<Event>, ids: seq<string>): (Table, seq<Event>) {
    if ids == [] then (t, log)
    else
      var (t1, log1) := ReleaseAll(t, log, ids[..|ids| - 1]);
      ReleaseOne(t1, log1, ids[|ids| - 1])
  }

  // ---- What every operation keeps ------------------------------------------------------------------

  /** Table and log agree. */
  ghost predicate Faithful(t: Table, log: seq<Event>) {
    LegalLog(log) && t == Replay(log)
  }

  lemma FaithfulStep(t: Table, log: seq<Event>, e: Event)
    requires Faithful(t, log) && Legal(t, e)
    ensures Faithful(Apply(t, e), log + [e])
  {
    ReplaySnoc(log, e);
    LegalSnoc(log, e);
  }

  lemma GrantOneFaith(g: Grant, req: Request, scope: Scope, id: string)
    requires Faithful(g.table, g.log) && id !in g.table.leases
    ensures var r := GrantOne(g, req, scope, id);
      Faithful(r.table, r.log) && r.table.leases.Keys <= g.table.leases.Keys + {id}
  {
    if ScopeKey(scope.scopeType, scope.scopeValue) !in g.table.scopes {
      var lease := Lease(id, req.owner, req.mission, scope.scopeType, scope.scopeValue, req.now);
      FaithfulStep(g.table, g.log, LeaseIssued(lease));
    }
  }

  lemma {:induction false} GrantKeepsFaith(g: Grant, req: Request, ids: seq<string>, n: nat)
    requires n <= |req.scopes| && |ids| == |req.scopes|
    requires Faithful(g.table, g.log) && FreshIds(g.table, ids)
    ensures var r := GrantAll(g, req, ids, n);
      && Faithful(r.table, r.log)
      && forall i :: n <= i < |ids| ==> ids[i] !in r.table.leases
  {
    if n > 0 {
      GrantKeepsFaith(g, req, ids, n - 1);
      GrantOneFaith(GrantAll(g, req, ids, n - 1), req, req.scopes[n - 1], ids[n - 1]);
    }
  }

  /** The requested keys that another owner held at the start, in order. */
  function Denied(t: Table, req: Request, n: nat): seq<string>
    requires n <= |req.scopes|
  {
    if n == 0 then []
    else
      var key := RequestKey(req, n - 1);
      if HeldByOther(t, key, req.owner) then Denied(t, req, n - 1) + [key] else Denied(t, req, n - 1)
  }

  /** Nothing leased before is touched, and every scope leased since is the requester's. */
  ghost predicate Extends(t: Table, r: Table, owner: string) {
    && (forall id :: id in t.leases ==> id in r.leases && r.leases[id] == t.leases[id])
    && (forall k :: k in t.scopes ==> k in r.scopes && r.scopes[k] == t.scopes[k])
    && (forall k :: k in r.scopes && k !in t.scopes ==> Holds(r, owner, k))
  }

  lemma IssueExtends(t: Table, table: Table, lease: Lease)
    requires Bijective(table) && Extends(t, table, lease.owner)
    requires lease.id !in table.leases && KeyOf(lease) !in table.scopes
    ensures Extends(t, Apply(table, LeaseIssued(lease)), lease.owner)
  {
    var r := Apply(table, LeaseIssued(lease));
    forall k | k in r.scopes && k !in t.scopes ensures Holds(r, lease.owner, k) {
      if k in table.scopes { assert Holds(table, lease.owner, k); }
    }
  }

  /** A scope is granted unless another owner already held it when the request arrived. */
  lemma GrantOneMeaning(t: Table, g: Grant, req: Request, scope: Scope, id: string)
    requires Bijective(t) && Bijective(g.table) && id !in g.table.leases && Extends(t, g.table, req.owner)
    ensures var r := GrantOne(g, req, scope, id); Extends(t, r.table, req.owner) && Extends(g.table, r.table, req.owner)
    ensures var r, key := GrantOne(g, req, scope, id), ScopeKey(scope.scopeType, scope.scopeValue);
      if HeldByOther(t, key, req.owner) then r.denied == g.denied + [key] && r.acquired == g.acquired
      else Holds(r.table, req.owner, key) && r.denied == g.denied && r.acquired == g.acquired + [LeaseOf(r.table, key)]
  {
    var key := ScopeKey(scope.scopeType, scope.scopeValue);
    if key !in g.table.scopes {
      var lease := Lease(id, req.owner, req.mission, scope.scopeType, scope.scopeValue, req.now);
      IssueExtends(t, g.table, lease);
      IssueExtends(g.table, g.table, lease);
    } else if key !in t.scopes {
      assert Holds(g.table, req.owner, key);
    }
  }

  /** Acquire touches no lease that was there; all that is new belongs to the requester. */
  lemma {:induction false} GrantExtends(g: Grant, req: Request, ids: seq<string>, n: nat)
    requires n <= |req.scopes| && |ids| == |req.scopes|
    requires Faithful(g.table, g.log) && FreshIds(g.table, ids)
    ensures Extends(g.table, GrantAll(g, req, ids, n).table, req.owner)
  {
    if n > 0 {
      GrantExtends(g, req, ids, n - 1);
      GrantStep(g, req, ids, n);
    }
  }

  /** The n-th scope of a request against the table the request started from. */
  lemma GrantStep(g: Grant, req: Request, ids: seq<string>, n: nat)
    requires 0 < n <= |req.scopes| && |ids| == |req.scopes|
    requires Faithful(g.table, g.log) && FreshIds(g.table, ids)
    requires Extends(g.table, GrantAll(g, req, ids, n - 1).table, req.owner)
    ensures var h, r, key := GrantAll(g, req, ids, n - 1), GrantAll(g, req, ids, n), RequestKey(req, n - 1);
      && Extends(g.table, r.table, req.owner) && Extends(h.table, r.table, req.owner)
      && if HeldByOther(g.table, key, req.owner) then r.denied == h.denied + [key] && r.acquired == h.acquired
         else
           Holds(r.table, req.owner, key) && r.denied == h.denied && r.acquired == h.acquired + [LeaseOf(r.table, key)]
  {
    GrantKeepsFaith(g, req, ids, n - 1);
    ReplayIsBijective(g.log);
    ReplayIsBijective(GrantAll(g, req, ids, n - 1).log);
    GrantOneMeaning(g.table, GrantAll(g, req, ids, n - 1), req, req.scopes[n - 1], ids[n - 1]);
  }

  lemma ExtendsHolds(t: Table, r: Table, owner: string, key: string)
    requires Extends(t, r, owner)
    ensures HeldByOther(t, key, owner) ==> !Holds(r, owner, key)
    ensures Holds(t, owner, key) ==> Holds(r, owner, key)
  {
  }

  /** After Acquire the requester holds every requested scope that no other owner held before. */
  lemma {:induction false} GrantHolds(g: Grant, req: Request, ids: seq<string>, n: nat, i: nat)
    requires i < n <= |req.scopes| && |ids| == |req.scopes|
    requires Faithful(g.table, g.log) && FreshIds(g.table, ids)
    ensures Holds(GrantAll(g, req, ids, n).table, req.owner, RequestKey(req, i))
      <==> !HeldByOther(g.table, RequestKey(req, i), req.owner)
  {
    var h, r, key := GrantAll(g, req, ids, n - 1), GrantAll(g, req, ids, n), RequestKey(req, i);
    GrantExtends(g, req, ids, n - 1);
    GrantStep(g, req, ids, n);
    ExtendsHolds(g.table, r.table, req.owner, key);
    if i < n - 1 {
      GrantHolds(g, req, ids, n - 1, i);
      ExtendsHolds(h.table, r.table, req.owner, key);
    }
  }

  /** Each of the first n requested scopes was held by another owner in t, or is held by the requester in r. */
  predicate Settled(t: Table, r: Table, req: Request, n: nat)
    requires n <= |req.scopes|
  {
    forall i :: 0 <= i < n ==> Settles(t, r, req.owner, RequestKey(req, i))
  }

  predicate Settles(t: Table, r: Table, owner: string, key: string) {
    HeldByOther(t, key, owner) || Holds(r, owner, key)
  }

  /** The live leases, in a table r, of the requested scopes that no other owner held in t, in order. */
  function Granted(t: Table, r: Table, req: Request, n: nat): seq<Lease>
    requires n <= |req.scopes| && Settled(t, r, req, n)
  {
    if n == 0 then []
    else
      var key := RequestKey(req, n - 1);
      assert Settles(t, r, req.owner, key);
      if HeldByOther(t, key, req.owner) then Granted(t, r, req, n - 1)
      else Granted(t, r, req, n - 1) + [LeaseOf(r, key)]
  }

  lemma {:induction false} GrantedStays(t: Table, h: Table, r: Table, req: Request, n: nat)
    requires n <= |req.scopes| && Extends(h, r, req.owner) && Settled(t, h, req, n)
    ensures Settled(t, r, req, n) && Granted(t, h, req, n) == Granted(t, r, req, n)
  {
    forall i | 0 <= i < n ensures Settles(t, r, req.owner, RequestKey(req, i)) {
      assert Settles(t, h, req.owner, RequestKey(req, i));
      ExtendsHolds(h, r, req.owner, RequestKey(req, i));
    }
    if n > 0 {
      GrantedStays(t, h, r, req, n - 1);
      assert Settles(t, h, req.owner, RequestKey(req, n - 1));
    }
  }

  lemma AllSettled(g: Grant, req: Request, ids: seq<string>, n: nat)
    requires n <= |req.scopes| && |ids| == |req.scopes|
    requires Faithful(g.table, g.log) && FreshIds(g.table, ids)
    ensures Settled(g.table, GrantAll(g, req, ids, n).table, req, n)
  {
    forall i | 0 <= i < n ensures Settles(g.table, GrantAll(g, req, ids, n).table, req.owner, RequestKey(req, i)) {
      GrantHolds(g, req, ids, n, i);
    }
  }

  /** The two answer lists after n scopes, the request having started from t. */
  ghost predicate Answers(t: Table, g: Grant, req: Request, n: nat)
    requires n <= |req.scopes|
  {
    && g.denied == Denied(t, req, n)
    && Settled(t, g.table, req, n) && g.acquired == Granted(t, g.table, req, n)
    && |g.acquired| + |g.denied| == n
  }

  lemma AnswerStep(t: Table, h: Grant, r: Grant, req: Request, n: nat)
    requires 0 < n <= |req.scopes| && Answers(t, h, req, n - 1)
    requires Extends(h.table, r.table, req.owner) && Settled(t, r.table, req, n)
    requires var key := RequestKey(req, n - 1);
      if HeldByOther(t, key, req.owner) then r.denied == h.denied + [key] && r.acquired == h.acquired
      else Holds(r.table, req.owner, key) && r.denied == h.denied && r.acquired == h.acquired + [LeaseOf(r.table, key)]
    ensures Answers(t, r, req, n)
  {
    GrantedStays(t, h.table, r.table, req, n - 1);
  }

  /** Acquire denies exactly the scopes that another owner already held, in order, and answers with the live lease of
      each other one, in order. */
  lemma {:induction false} GrantAnswers(g: Grant, req: Request, ids: seq<string>, n: nat)
    requires n <= |req.scopes| && |ids| == |req.scopes|
    requires Faithful(g.table, g.log) && FreshIds(g.table, ids) && g.acquired == [] && g.denied == []
    ensures Answers(g.table, GrantAll(g, req, ids, n), req, n)
  {
    if n > 0 {
      var h, r := GrantAll(g, req, ids, n - 1), GrantAll(g, req, ids, n);
      GrantAnswers(g, req, ids, n - 1);
      GrantExtends(g, req, ids, n - 1);
      GrantStep(g, req, ids, n);
      AllSettled(g, req, ids, n);
      AnswerStep(g.table, h, r, req, n);
    }
  }

  lemma {:induction false} ReleaseKeepsFaith(t: Table, log: seq<Event>, ids: seq<string>)
    requires Faithful(t, log)
    ensures var (t', log') := ReleaseAll(t, log, ids); Faithful(t', log')
  {
    if ids != [] {
      ReleaseKeepsFaith(t, log, ids[..|ids| - 1]);
      var (t1, log1) := ReleaseAll(t, log, ids[..|ids| - 1]);
      var id := ids[|ids| - 1];
      if id in t1.leases { FaithfulStep(t1, log1, LeaseReleased(id)); }
    }
  }

  // ---- What is issued and what is released --------------------------------------------------------

  /** The lease that the i-th scope of a request would be issued. */
  function LeaseFor(req: Request, ids: seq<string>, i: nat): Lease
    requires i < |req.scopes| == |ids|
  {
    Lease(ids[i], req.owner, req.mission, req.scopes[i].scopeType, req.scopes[i].scopeValue, req.now)
  }

  /** Every new lease names the owner, mission and time of the request and one of its scopes, under that scope's id. */
  lemma {:induction false} NewLease(g: Grant, req: Request, ids: seq<string>, n: nat, id: string) returns (i: nat)
    requires n <= |req.scopes| == |ids| && id in GrantAll(g, req, ids, n).table.leases && id !in g.table.leases
    ensures i < n && GrantAll(g, req, ids, n).table.leases[id] == LeaseFor(req, ids, i) && id == ids[i]
  {
    var h := GrantAll(g, req, ids, n - 1);
    if id in h.table.leases {
      i := NewLease(g, req, ids, n - 1, id);
      if ScopeKey(req.scopes[n - 1].scopeType, req.scopes[n - 1].scopeValue) !in h.table.scopes && ids[n - 1] == id {
        i := n - 1;
      }
    } else {
      i := n - 1;
    }
  }

  /** The log grew by the issue of one new lease after the other, each of them live now. */
  ghost predicate Issued(t: Table, log: seq<Event>, r: Table, more: seq<Event>) {
    && log <= more && |more| - |log| == |r.leases| - |t.leases|
    && forall k :: |log| <= k < |more| ==> IsNew(t, r, more[k])
  }

  predicate IsNew(t: Table, r: Table, e: Event) {
    && e.LeaseIssued? && e.lease.id !in t.leases
    && e.lease.id in r.leases && r.leases[e.lease.id] == e.lease
  }

  lemma IssueOne(t: Table, log: seq<Event>, r: Table, more: seq<Event>, lease: Lease)
    requires Issued(t, log, r, more) && lease.id !in r.leases && lease.id !in t.leases
    ensures Issued(t, log, Apply(r, LeaseIssued(lease)), more + [LeaseIssued(lease)])
  {
    var next, all := Apply(r, LeaseIssued(lease)), more + [LeaseIssued(lease)];
    forall k | |log| <= k < |all| ensures IsNew(t, next, all[k]) {
      if k < |more| { assert IsNew(t, r, more[k]); }
    }
  }

  lemma GrantOneLogs(t: Table, log: seq<Event>, h: Grant, req: Request, scope: Scope, id: string)
    requires Issued(t, log, h.table, h.log) && id !in h.table.leases && id !in t.leases
    ensures Issued(t, log, GrantOne(h, req, scope, id).table, GrantOne(h, req, scope, id).log)
  {
    IssueOne(t, log, h.table, h.log, Lease(id, req.owner, req.mission, scope.scopeType, scope.scopeValue, req.now));
  }

  lemma NextIsFresh(g: Grant, req: Request, ids: seq<string>, n: nat)
    requires 0 < n <= |req.scopes| == |ids| && Faithful(g.table, g.log) && FreshIds(g.table, ids)
    ensures ids[n - 1] !in g.table.leases && ids[n - 1] !in GrantAll(g, req, ids, n - 1).table.leases
  {
    GrantKeepsFaith(g, req, ids, n - 1);
  }

  /** What a request adds to the log. */
  lemma {:induction false} GrantLogs(g: Grant, req: Request, ids: seq<string>, n: nat)
    requires n <= |req.scopes| == |ids| && Faithful(g.table, g.log) && FreshIds(g.table, ids)
    ensures Issued(g.table, g.log, GrantAll(g, req, ids, n).table, GrantAll(g, req, ids, n).log)
  {
    if n > 0 {
      GrantLogs(g, req, ids, n - 1);
      NextIsFresh(g, req, ids, n);
      GrantOneLogs(g.table, g.log, GrantAll(g, req, ids, n - 1), req, req.scopes[n - 1], ids[n - 1]);
    }
  }

  /** The leases that are left when some are released. */
  function Kept(leases: map<string, Lease>, ids: seq<string>): map<string, Lease> {
    map id | id in leases && id !in ids :: leases[id]
  }

  /** Releasing takes exactly the leases named away, and logs the release of each live one once. */
  lemma {:induction false} ReleaseLeaves(t: Table, log: seq<Event>, ids: seq<string>)
    ensures var (t', log') := ReleaseAll(t, log, ids);
      && t'.leases == Kept(t.leases, ids)
      && log <= log' && |log'| - |log| == |t.leases| - |t'.leases|
      && forall k :: |log| <= k < |log'| ==> log'[k].LeaseReleased? && log'[k].id in ids && log'[k].id in t.leases
  {
    if ids != [] {
      var init, last := ids[..|ids| - 1], ids[|ids| - 1];
      assert ids == init + [last];
      ReleaseLeaves(t, log, init);
      var (t1, log1) := ReleaseAll(t, log, init);
      if last in t1.leases { WithoutSize(t1.leases, last); }
    } else {
      assert Kept(t.leases, ids) == t.leases;
    }
  }

  lemma WithoutSize<K, V>(m: map<K, V>, k: K)
    requires k in m
    ensures |Without(m, k)| == |m| - 1
  {
    assert m == Without(m, k)[k := m[k]];
  }

  // ---- The objects -------------------------------------------------------------------------------

  class EventLog {
    var events: seq<Event>

    constructor ()
      ensures events == []
    {
      events := [];
    }

    method Append(e: Event)
      modifies this
      ensures events == old(events) + [e]
    {
      events := events + [e];
    }
  }

  class LeaseManager {
    var leases: map<string, Lease>
    var scopes: map<string, string>
    const events: EventLog

    ghost function View(): Table
      reads this
    {
      Table(leases, scopes)
    }

    /** The live maps are what a restart would rebuild from the log, and the log is one the manager may write. */
    ghost predicate Valid()
      reads this, events
    {
      Faithful(View(), events.events)
    }

    /** NewLeaseManager: replays the whole log, whatever it holds. */
    constructor (events: EventLog)
      ensures this.events == events
      ensures View() == Replay(events.events)
      ensures LegalLog(events.events) ==> Valid()
    {
      this.events := events;
      leases, scopes := map[], map[];
      new;
      for k := 0 to |events.events|
        invariant View() == Replay(events.events[..k])
      {
        assert events.events[..k + 1][..k] == events.events[..k];
        match events.events[k]
        case LeaseIssued(lease) =>
          leases := leases[lease.id := lease];
          scopes := scopes[KeyOf(lease) := lease.id];
        case LeaseReleased(id) =>
          if id in leases {
            scopes := Without(scopes, KeyOf(leases[id]));
            leases := Without(leases, id);
          }
        case _ =>
      }
      assert events.events[..|events.events|] == events.events;
    }

    /** One scope of a request: the lease granted or already held, or None when it is denied. */
    method AcquireScope(req: Request, scope: Scope, id: string) returns (r: Option<Lease>)
      requires Valid() && id !in leases
      modifies this, events
      ensures Valid()
      ensures (View(), events.events, r) == Decide(old(View()), old(events.events), req, scope, id)
    {
      ReplayIsBijective(events.events);
      var key := ScopeKey(scope.scopeType, scope.scopeValue);
      if key in scopes {
        var existing := leases[scopes[key]];
        if existing.owner != req.owner { return None; }
        return Some(existing);
      }
      var lease := Lease(id, req.owner, req.mission, scope.scopeType, scope.scopeValue, req.now);
      FaithfulStep(View(), events.events, LeaseIssued(lease));
      leases := leases[lease.id := lease];
      scopes := scopes[key := lease.id];
      events.Append(LeaseIssued(lease));
      return Some(lease);
    }

    /** ids[i] is the random id that would be generated for scope i. */
    method Acquire(req: Request, ids: seq<string>) returns (acquired: seq<Lease>, denied: seq<string>)
      requires Valid() && |ids| == |req.scopes| && FreshIds(View(), ids)
      modifies this, events
      ensures Valid()
      ensures Grant(View(), events.events, acquired, denied)
        == GrantAll(Grant(old(View()), old(events.events), [], []), req, ids, |req.scopes|)
    {
      acquired, denied := [], [];
      ghost var g := Grant(View(), events.events, [], []);
      for i := 0 to |req.scopes|
        invariant Grant(View(), events.events, acquired, denied) == GrantAll(g, req, ids, i)
        invariant Valid()
      {
        GrantKeepsFaith(g, req, ids, i);
        var lease := AcquireScope(req, req.scopes[i], ids[i]);
        match lease
        case Some(l) => acquired := acquired + [l];
        case None => denied := denied + [RequestKey(req, i)];
      }
    }

    method Release(leaseIDs: seq<string>) returns (released: nat)
      requires Valid()
      modifies this, events
      ensures Valid()
      ensures (View(), events.events) == ReleaseAll(old(View()), old(events.events), leaseIDs)
      ensures released == |events.events| - |old(events.events)|
    {
      released := 0;
      ghost var t, log := View(), events.events;
      for i := 0 to |leaseIDs|
        invariant (View(), events.events) == ReleaseAll(t, log, leaseIDs[..i])
        invariant released == |events.events| - |log|
      {
        assert leaseIDs[..i + 1][..i] == leaseIDs[..i];
        var id := leaseIDs[i];
        if id in leases {
          scopes := Without(scopes, KeyOf(leases[id]));
          leases := Without(leases, id);
          released := released + 1;
          events.Append(LeaseReleased(id));
        }
      }
      assert leaseIDs[..|leaseIDs|] == leaseIDs;
      ReleaseKeepsFaith(t, log, leaseIDs);
    }

    method OwnerHoldsScope(ownerID: string, scopeType: string, scopeValue: string) returns (held: bool)
      ensures held == Holds(View(), ownerID, ScopeKey(scopeType, scopeValue))
    {
      var key := ScopeKey(scopeType, scopeValue);
      if key !in scopes { return false; }
      var leaseID := scopes[key];
      held := leaseID in leases && leases[leaseID].owner == ownerID;
    }
  }
}
