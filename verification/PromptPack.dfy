/** The prompt compiler (god/prompt_compiler.go): shards are scored, deduplicated and packed under a token budget. */
module PromptPack {
  import opened Strings

  /** A candidate shard; an empty blob ID stands for none. */
  datatype Shard = Shard(kind: string, blob: string, content: string, symbol: string, path: string,
                         testRelevant: bool, hotsetHit: bool, recentlyTouched: bool)

  datatype ScoredShard = ScoredShard(shard: Shard, score: int, tokens: nat)

  function EstimateTokens(data: string): (n: nat)
    ensures n > 0
  {
    |data| / 4 + 10
  }

  /** The salience score in hundredths. */
  function ScoreShard(s: Shard): int {
    (if s.kind == "symdef" then 300 else if s.kind == "callers" then 150 else 0)
    + (if s.testRelevant then 200 else 0)
    + (if s.hotsetHit then 100 else 0)
    + (if s.recentlyTouched then 50 else 0)
    - EstimateTokens(s.content)
  }

  /** A token for every four whole bytes, and ten for the frame. */
  lemma TokenEstimate(data: string)
    ensures 4 * (EstimateTokens(data) - 10) <= |data| < 4 * (EstimateTokens(data) - 10) + 4
  {
  }

  /** What each property adds to the score, in hundredths, and what each token takes away. */
  lemma ScoreWeights(s: Shard)
    ensures ScoreShard(s.(kind := "symdef")) == ScoreShard(s.(kind := "")) + 300
    ensures ScoreShard(s.(kind := "callers")) == ScoreShard(s.(kind := "")) + 150
    ensures s.kind != "symdef" && s.kind != "callers" ==> ScoreShard(s) == ScoreShard(s.(kind := ""))
    ensures ScoreShard(s.(testRelevant := true)) == ScoreShard(s.(testRelevant := false)) + 200
    ensures ScoreShard(s.(hotsetHit := true)) == ScoreShard(s.(hotsetHit := false)) + 100
    ensures ScoreShard(s.(recentlyTouched := true)) == ScoreShard(s.(recentlyTouched := false)) + 50
    ensures ScoreShard(Shard("", s.blob, s.content, s.symbol, s.path, false, false, false)) 
      == 0 - EstimateTokens(s.content)
  {
  }

  function Scored(s: Shard): ScoredShard {
    ScoredShard(s, ScoreShard(s), EstimateTokens(s.content))
  }

  // ---- One shard for each blob -----------------------------------------------------------------

  /** The first of the best-scored candidates for a blob, if there is any candidate. */
  function Best(cs: seq<Shard>, blob: string): Option<Shard> {
    if cs == [] then None
    else
      var c, best := cs[|cs| - 1], Best(cs[..|cs| - 1], blob);
      if c.blob == blob && (best.None? || ScoreShard(c) > ScoreShard(best.value)) then Some(c) else best
  }

  lemma {:induction false} BestIsBest(cs: seq<Shard>, blob: string, i: nat)
    requires i < |cs| && cs[i].blob == blob
    ensures Best(cs, blob).Some? && ScoreShard(cs[i]) <= ScoreShard(Best(cs, blob).value)
  {
    if i < |cs| - 1 { BestIsBest(cs[..|cs| - 1], blob, i); }
  }

  lemma {:induction false} BestIsFirst(cs: seq<Shard>, blob: string) returns (i: nat)
    requires Best(cs, blob).Some?
    ensures i < |cs| && cs[i] == Best(cs, blob).value && cs[i].blob == blob
    ensures forall j {:trigger cs[j]} :: 0 <= j < i && cs[j].blob == blob ==> ScoreShard(cs[j]) < ScoreShard(cs[i])
  {
    var last := |cs| - 1;
    var best := Best(cs[..last], blob);
    if cs[last].blob == blob && (best.None? || ScoreShard(cs[last]) > ScoreShard(best.value)) {
      i := last;
      forall j | 0 <= j < i && cs[j].blob == blob ensures ScoreShard(cs[j]) < ScoreShard(cs[i]) {
        BestIsBest(cs[..last], blob, j);
      }
    } else {
      i := BestIsFirst(cs[..last], blob);
      assert forall j :: 0 <= j < last ==> cs[..last][j] == cs[j];
    }
  }

  /** What an entry of the deduplicated list stands for: a blob, or one candidate without a blob. */
  datatype Key = Blob(id: string) | Alone(shard: Shard)

  /** The entries in the order of their first candidates. */
  function Keys(cs: seq<Shard>): seq<Key> {
    if cs == [] then []
    else
      var c, keys := cs[|cs| - 1], Keys(cs[..|cs| - 1]);
      if c.blob == "" then keys + [Alone(c)]
      else if Blob(c.blob) in keys then keys
      else keys + [Blob(c.blob)]
  }

  lemma {:induction false} KeysAreBlobs(cs: seq<Shard>, blob: string)
    ensures Blob(blob) in Keys(cs) <==> blob != "" && Best(cs, blob).Some?
  {
    if cs != [] { KeysAreBlobs(cs[..|cs| - 1], blob); }
  }

  lemma {:induction false} KeysDistinct(cs: seq<Shard>, i: nat, j: nat)
    requires i < j < |Keys(cs)| && Keys(cs)[i].Blob?
    ensures Keys(cs)[i] != Keys(cs)[j]
  {
    var before := Keys(cs[..|cs| - 1]);
    if j < |before| { KeysDistinct(cs[..|cs| - 1], i, j); } else { assert before[i] in before; }
  }

  function ValueOf(cs: seq<Shard>, key: Key): ScoredShard
    requires key.Blob? ==> Best(cs, key.id).Some?
  {
    match key
    case Alone(s) => Scored(s)
    case Blob(id) => Scored(Best(cs, id).value)
  }

  lemma KeyHasValue(cs: seq<Shard>, k: nat)
    requires k < |Keys(cs)|
    ensures Keys(cs)[k].Blob? ==> Best(cs, Keys(cs)[k].id).Some?
  {
    if Keys(cs)[k].Blob? { KeysAreBlobs(cs, Keys(cs)[k].id); }
  }

  /** Every candidate without a blob, and for every blob the first of its best candidates. */
  function Deduplicated(cs: seq<Shard>): (r: seq<ScoredShard>)
    ensures |r| == |Keys(cs)|
  {
    seq(|Keys(cs)|, k requires 0 <= k < |Keys(cs)| =>
      KeyHasValue(cs, k);
      ValueOf(cs, Keys(cs)[k]))
  }

  lemma DeduplicatedAt(cs: seq<Shard>, k: nat)
    requires k < |Keys(cs)|
    ensures Keys(cs)[k].Blob? ==> Best(cs, Keys(cs)[k].id).Some?
    ensures Deduplicated(cs)[k] == ValueOf(cs, Keys(cs)[k])
  {
    KeyHasValue(cs, k);
  }

  lemma {:induction false} AloneHasNoBlob(cs: seq<Shard>, k: nat)
    requires k < |Keys(cs)| && Keys(cs)[k].Alone?
    ensures Keys(cs)[k].shard.blob == ""
  {
    var before := Keys(cs[..|cs| - 1]);
    if k < |before| { AloneHasNoBlob(cs[..|cs| - 1], k); }
  }

  lemma EntryBlob(cs: seq<Shard>, k: nat)
    requires k < |Keys(cs)|
    ensures Deduplicated(cs)[k].shard.blob == if Keys(cs)[k].Blob? then Keys(cs)[k].id else ""
  {
    DeduplicatedAt(cs, k);
    var key := Keys(cs)[k];
    if key.Alone? { AloneHasNoBlob(cs, k); } else { var _ := BestIsFirst(cs, key.id); }
  }

  /** Each blob among the candidates has exactly one entry, the first of its best candidates. */
  lemma OncePerBlob(cs: seq<Shard>, i: nat) returns (k: nat)
    requires i < |cs| && cs[i].blob != ""
    ensures k < |Deduplicated(cs)| && Deduplicated(cs)[k].shard.blob == cs[i].blob
    ensures Best(cs, cs[i].blob).Some? && Deduplicated(cs)[k] == Scored(Best(cs, cs[i].blob).value)
    ensures forall j {:trigger Deduplicated(cs)[j]} :: 0 <= j < |Deduplicated(cs)| && j != k ==>
        Deduplicated(cs)[j].shard.blob != cs[i].blob
  {
    var blob := cs[i].blob;
    BestIsBest(cs, blob, i);
    KeysAreBlobs(cs, blob);
    k :| 0 <= k < |Keys(cs)| && Keys(cs)[k] == Blob(blob);
    DeduplicatedAt(cs, k);
    EntryBlob(cs, k);
    forall j | 0 <= j < |Keys(cs)| && j != k ensures Deduplicated(cs)[j].shard.blob != blob {
      EntryBlob(cs, j);
      if Keys(cs)[j].Blob? { KeysDistinct(cs, if j < k then j else k, if j < k then k else j); }
    }
  }

  /** The candidates without a blob. */
  function Blobless(cs: seq<Shard>): seq<Shard> {
    if cs == [] then []
    else
      var c, before := cs[|cs| - 1], Blobless(cs[..|cs| - 1]);
      if c.blob == "" then before + [c] else before
  }

  function AloneShards(keys: seq<Key>): seq<Shard> {
    if keys == [] then []
    else
      var key, before := keys[|keys| - 1], AloneShards(keys[..|keys| - 1]);
      if key.Alone? then before + [key.shard] else before
  }

  /** Candidates without a blob are all kept, in order. */
  lemma {:induction false} BloblessStay(cs: seq<Shard>)
    ensures AloneShards(Keys(cs)) == Blobless(cs)
  {
    if cs != [] {
      var before := Keys(cs[..|cs| - 1]);
      BloblessStay(cs[..|cs| - 1]);
      if Keys(cs) != before { assert Keys(cs)[..|before|] == before; }
    }
  }

  /** Positions of the blobs among the keys. */
  ghost predicate Indexes(seen: map<string, nat>, keys: seq<Key>) {
    && (forall b :: b in seen ==> seen[b] < |keys| && keys[seen[b]] == Blob(b))
    && (forall k :: 0 <= k < |keys| && keys[k].Blob? ==> keys[k].id in seen)
  }

  lemma OldEntry(cs: seq<Shard>, c: Shard, k: nat)
    requires k < |Keys(cs)|
    ensures k < |Keys(cs + [c])| && Keys(cs + [c])[k] == Keys(cs)[k]
    ensures var before, joins := Deduplicated(cs)[k], Keys(cs)[k] == Blob(c.blob);
      Deduplicated(cs + [c])[k] == if joins && ScoreShard(c) > before.score then Scored(c) else before
  {
    assert (cs + [c])[..|cs|] == cs;
    DeduplicatedAt(cs, k);
    DeduplicatedAt(cs + [c], k);
  }

  /** One more candidate for a blob that has an entry replaces the entry when it scores higher. */
  lemma JoinsEntry(cs: seq<Shard>, c: Shard, idx: nat)
    requires c.blob != "" && idx < |Keys(cs)| && Keys(cs)[idx] == Blob(c.blob)
    ensures Keys(cs + [c]) == Keys(cs)
    ensures Deduplicated(cs + [c])
      == if ScoreShard(c) > Deduplicated(cs)[idx].score then Deduplicated(cs)[idx := Scored(c)] else Deduplicated(cs)
  {
    var keys := Keys(cs);
    assert (cs + [c])[..|cs|] == cs;
    forall k | 0 <= k < |keys|
      ensures Deduplicated(cs + [c])[k]
        == if k == idx && ScoreShard(c) > Deduplicated(cs)[k].score then Scored(c) else Deduplicated(cs)[k]
    {
      OldEntry(cs, c, k);
      if k < idx && keys[k].Blob? { KeysDistinct(cs, k, idx); }
      if idx < k { KeysDistinct(cs, idx, k); }
    }
  }

  /** Any other candidate is a new entry. */
  lemma NewEntry(cs: seq<Shard>, c: Shard)
    requires Blob(c.blob) !in Keys(cs)
    ensures Keys(cs + [c]) == Keys(cs) + [if c.blob == "" then Alone(c) else Blob(c.blob)]
    ensures Deduplicated(cs + [c]) == Deduplicated(cs) + [Scored(c)]
  {
    var keys := Keys(cs);
    assert (cs + [c])[..|cs|] == cs;
    KeysAreBlobs(cs, c.blob);
    forall k | 0 <= k < |keys| ensures Deduplicated(cs + [c])[k] == Deduplicated(cs)[k] {
      OldEntry(cs, c, k);
      assert keys[k] in keys;
    }
    DeduplicatedAt(cs + [c], |keys|);
  }

  // ---- Sorting -------------------------------------------------------------------------------------

  predicate Descending(s: seq<ScoredShard>) {
    forall i, j :: 0 <= i < j < |s| ==> s[i].score >= s[j].score
  }

  /** sort.Slice: some descending order; the order of equal scores is not specified. */
  method SortByScore(s: seq<ScoredShard>) returns (r: seq<ScoredShard>)
    ensures multiset(r) == multiset(s) && Descending(r)
  {
    r := [];
    for k := 0 to |s|
      invariant multiset(r) == multiset(s[..k]) && Descending(r)
    {
      r := Insert(r, s[k]);
      assert s[..k + 1] == s[..k] + [s[k]];
    }
    assert s[..|s|] == s;
  }

  lemma InsertKeeps(s: seq<ScoredShard>, i: nat, x: ScoredShard)
    requires i <= |s|
    ensures multiset(s[..i] + [x] + s[i..]) == multiset(s) + multiset{x}
  {
    assert s == s[..i] + s[i..];
  }

  lemma InsertSorts(s: seq<ScoredShard>, i: nat, x: ScoredShard)
    requires i <= |s| && Descending(s)
    requires (i > 0 ==> s[i - 1].score >= x.score) && (i < |s| ==> s[i].score <= x.score)
    ensures Descending(s[..i] + [x] + s[i..])
  {
  }

  method Insert(s: seq<ScoredShard>, x: ScoredShard) returns (r: seq<ScoredShard>)
    requires Descending(s)
    ensures multiset(r) == multiset(s) + multiset{x} && Descending(r)
  {
    var i := 0;
    while i < |s| && s[i].score >= x.score
      invariant 0 <= i <= |s| && (i > 0 ==> s[i - 1].score >= x.score)
    {
      i := i + 1;
    }
    InsertKeeps(s, i, x);
    InsertSorts(s, i, x);
    r := s[..i] + [x] + s[i..];
  }

  lemma EntryIsScored(cs: seq<Shard>, r: seq<ScoredShard>, k: nat)
    requires multiset(r) == multiset(Deduplicated(cs)) && k < |r|
    ensures r[k] == Scored(r[k].shard)
  {
    assert r[k] in multiset(r);
    assert r[k] in Deduplicated(cs);
    var j :| 0 <= j < |Deduplicated(cs)| && Deduplicated(cs)[j] == r[k];
    DeduplicatedAt(cs, j);
  }

  lemma SeenMore(seen: map<string, nat>, keys: seq<Key>, key: Key)
    requires Indexes(seen, keys) && key.Blob? && key !in keys
    ensures Indexes(seen[key.id := |keys|], keys + [key])
  {
    assert forall b :: b in seen ==> keys[seen[b]] in keys;
  }

  /** The loop of ScoreShards. */
  method Deduplicate(candidates: seq<Shard>) returns (scored: seq<ScoredShard>)
    ensures scored == Deduplicated(candidates)
  {
    var seen: map<string, nat> := map[];
    scored := [];
    for k := 0 to |candidates|
      invariant scored == Deduplicated(candidates[..k]) && Indexes(seen, Keys(candidates[..k]))
    {
      var c := candidates[k];
      ghost var before := candidates[..k];
      assert candidates[..k + 1] == before + [c];
      KeysAreBlobs(before, c.blob);
      if c.blob in seen { JoinsEntry(before, c, seen[c.blob]); } else { NewEntry(before, c); }
      var s := ScoredShard(c, ScoreShard(c), EstimateTokens(c.content));
      if c.blob != "" {
        if c.blob in seen {
          var idx := seen[c.blob];
          if s.score > scored[idx].score { scored := scored[idx := s]; }
          continue;
        }
        SeenMore(seen, Keys(before), Blob(c.blob));
        seen := seen[c.blob := |scored|];
      }
      scored := scored + [s];
    }
    assert candidates[..|candidates|] == candidates;
  }

  method ScoreShards(candidates: seq<Shard>) returns (r: seq<ScoredShard>)
    ensures multiset(r) == multiset(Deduplicated(candidates)) && Descending(r)
    ensures forall k :: 0 <= k < |r| ==> r[k] == Scored(r[k].shard)
  {
    var scored := Deduplicate(candidates);
    r := SortByScore(scored);
    forall k | 0 <= k < |r| ensures r[k] == Scored(r[k].shard) {
      EntryIsScored(candidates, r, k);
    }
  }

  // ---- Packing -------------------------------------------------------------------------------------------

  /** A packed shard: a pinned section, or a scored shard. */
  datatype PackedShard = Pinned(name: string, shard: Shard) | Ranked(scored: ScoredShard)

  function Tokens(p: PackedShard): nat {
    match p
    case Pinned(_, s) => EstimateTokens(s.content)
    case Ranked(ss) => ss.tokens
  }

  function TotalTokens(packed: seq<PackedShard>): nat {
    if packed == [] then 0 else TotalTokens(packed[..|packed| - 1]) + Tokens(packed[|packed| - 1])
  }

  lemma TotalSnoc(packed: seq<PackedShard>, p: PackedShard)
    ensures TotalTokens(packed + [p]) == TotalTokens(packed) + Tokens(p)
  {
    assert (packed + [p])[..|packed|] == packed;
  }

  lemma {:induction false} TotalJoin(a: seq<PackedShard>, b: seq<PackedShard>)
    ensures TotalTokens(a + b) == TotalTokens(a) + TotalTokens(b)
  {
    if b == [] {
      assert a + b == a;
    } else {
      var last := |b| - 1;
      TotalJoin(a, b[..last]);
      assert (a + b)[..|a| + last] == a + b[..last];
      assert (a + b)[|a| + last] == b[last];
    }
  }

  predicate IsSection(s: Shard, name: string) {
    s.kind == "prompt_section" && s.symbol == name
  }

  predicate Fits(s: Shard, name: string, room: int) {
    IsSection(s, name) && EstimateTokens(s.content) <= room
  }

  /** The first candidate of a section that fits, from the k-th on. */
  function FirstFit(cs: seq<Shard>, name: string, room: int, k: nat): (r: nat)
    requires k <= |cs|
    ensures k <= r <= |cs|
    decreases |cs| - k
  {
    if k == |cs| || Fits(cs[k], name, room) then k else FirstFit(cs, name, room, k + 1)
  }

  lemma {:induction false} FirstFitIsFirst(cs: seq<Shard>, name: string, room: int, k: nat)
    requires k <= |cs|
    ensures var fit := FirstFit(cs, name, room, k);
      (fit < |cs| ==> Fits(cs[fit], name, room)) && forall j :: k <= j < fit ==> !Fits(cs[j], name, room)
    decreases |cs| - k
  {
    if k < |cs| && !Fits(cs[k], name, room) { FirstFitIsFirst(cs, name, room, k + 1); }
  }

  /** A pinned section adds the first of its candidates that fits beside what is packed, if one fits. */
  function Pin(before: seq<PackedShard>, name: string, cs: seq<Shard>, room: int): seq<PackedShard> {
    var fit := FirstFit(cs, name, room - TotalTokens(before), 0);
    if fit < |cs| then before + [Pinned(name, cs[fit])] else before
  }

  function PackPinned(names: seq<string>, cs: seq<Shard>, room: int): seq<PackedShard> {
    if names == [] then []
    else Pin(PackPinned(names[..|names| - 1], cs, room), names[|names| - 1], cs, room)
  }

  predicate AnyFits(cs: seq<Shard>, name: string, left: int) {
    exists j :: 0 <= j < |cs| && Fits(cs[j], name, left)
  }

  /** Candidate j is the first one of the section that fits. */
  predicate FitsFirst(cs: seq<Shard>, name: string, left: int, j: nat) {
    j < |cs| && Fits(cs[j], name, left) && forall i :: 0 <= i < j ==> !Fits(cs[i], name, left)
  }

  /** The first candidate of the section that fits beside what is packed is added, and nothing when none does. */
  ghost predicate Takes(before: seq<PackedShard>, upto: seq<PackedShard>, name: string, cs: seq<Shard>, room: int) {
    var left := room - TotalTokens(before);
    if AnyFits(cs, name, left) then
      exists j: nat :: FitsFirst(cs, name, left, j) && upto == before + [Pinned(name, cs[j])]
    else upto == before
  }

  lemma PinTakes(before: seq<PackedShard>, name: string, cs: seq<Shard>, room: int)
    ensures Takes(before, Pin(before, name, cs, room), name, cs, room)
  {
    var left := room - TotalTokens(before);
    FirstFitIsFirst(cs, name, left, 0);
    var fit := FirstFit(cs, name, left, 0);
    if fit < |cs| { assert FitsFirst(cs, name, left, fit); }
  }

  /** The pinned sections are packed in turn, each beside those before it. */
  lemma {:induction false} PinnedTakes(names: seq<string>, cs: seq<Shard>, room: int, k: nat)
    requires k < |names|
    ensures Takes(PackPinned(names[..k], cs, room), PackPinned(names[..k + 1], cs, room), names[k], cs, room)
  {
    PinnedStep(names, cs, room, k);
    PinTakes(PackPinned(names[..k], cs, room), names[k], cs, room);
  }

  /** What is packed for earlier sections stays. */
  lemma {:induction false} PinnedGrows(names: seq<string>, cs: seq<Shard>, room: int, k: nat)
    requires k <= |names|
    ensures PackPinned(names[..k], cs, room) <= PackPinned(names, cs, room)
  {
    var last := |names| - 1;
    if k == |names| {
      assert names[..k] == names;
    } else {
      PinnedGrows(names[..last], cs, room, k);
      assert names[..last][..k] == names[..k];
    }
  }

  /** The ranked shards that are packed: each one that fits beside those packed before it. */
  function PackRanked(scored: seq<ScoredShard>, room: int): seq<PackedShard> {
    if scored == [] then []
    else
      var last := scored[|scored| - 1];
      var before := PackRanked(scored[..|scored| - 1], room);
      if last.tokens <= room - TotalTokens(before) then before + [Ranked(last)] else before
  }

  lemma PinFits(before: seq<PackedShard>, name: string, cs: seq<Shard>, room: nat)
    requires TotalTokens(before) <= room
    ensures TotalTokens(Pin(before, name, cs, room)) <= room
  {
    var fit := FirstFit(cs, name, room - TotalTokens(before), 0);
    FirstFitIsFirst(cs, name, room - TotalTokens(before), 0);
    if fit < |cs| { TotalSnoc(before, Pinned(name, cs[fit])); }
  }

  lemma {:induction false} PinnedFit(names: seq<string>, cs: seq<Shard>, room: nat)
    ensures TotalTokens(PackPinned(names, cs, room)) <= room
  {
    if names != [] {
      PinnedFit(names[..|names| - 1], cs, room);
      PinFits(PackPinned(names[..|names| - 1], cs, room), names[|names| - 1], cs, room);
    }
  }

  lemma {:induction false} RankedFit(scored: seq<ScoredShard>, room: nat)
    ensures TotalTokens(PackRanked(scored, room)) <= room
  {
    if scored != [] {
      var last, before := scored[|scored| - 1], PackRanked(scored[..|scored| - 1], room);
      RankedFit(scored[..|scored| - 1], room);
      if last.tokens <= room - TotalTokens(before) { TotalSnoc(before, Ranked(last)); }
    }
  }

  lemma {:induction false} RankedGrows(scored: seq<ScoredShard>, room: nat, k: nat)
    requires k <= |scored|
    ensures PackRanked(scored[..k], room) <= PackRanked(scored, room)
    ensures TotalTokens(PackRanked(scored[..k], room)) <= TotalTokens(PackRanked(scored, room))
  {
    var last := |scored| - 1;
    if k == |scored| {
      assert scored[..k] == scored;
    } else {
      RankedGrows(scored[..last], room, k);
      assert scored[..last][..k] == scored[..k];
      TotalSnoc(PackRanked(scored[..last], room), Ranked(scored[last]));
    }
  }

  /** Greedy: a shard is packed exactly when it fits beside the better-ranked shards that are packed; and a shard that
      is not packed does not fit in what is left at the end. */
  lemma {:induction false} GreedyTakes(scored: seq<ScoredShard>, room: nat, k: nat)
    requires k < |scored|
    ensures var before, upto := PackRanked(scored[..k], room), PackRanked(scored[..k + 1], room);
      && upto <= PackRanked(scored, room)
      && upto == (if TotalTokens(before) + scored[k].tokens <= room then before + [Ranked(scored[k])] else before)
      && (upto == before ==> TotalTokens(PackRanked(scored, room)) + scored[k].tokens > room)
  {
    assert scored[..k + 1][..k] == scored[..k];
    RankedGrows(scored, room, k);
    RankedGrows(scored, room, k + 1);
  }

  datatype BudgetMeta = BudgetMeta(tokenBudget: int, headerTokens: nat, missionTokens: nat, shardTokens: nat,
                                   totalTokens: nat, shardsIncluded: nat, shardsDropped: nat)

  /** What header and mission leave of a budget; the subtraction is in 64 bits. */
  function Room(budget: int, header: nat, mission: nat): nat {
    var left := Wrap1(Wrap1(budget - header) - mission);
    if left < 0 then 0 else left
  }

  /** Without wrap-around the room is what is left of the budget, or none; with it, an impossible budget leaves room. */
  lemma RoomIff(budget: int, header: nat, mission: nat)
    requires IsInt64(budget) && header + mission <= MAX_INT64
    ensures Room(budget, header, mission) == (if budget > header + mission then budget - header - mission else 0)
      <==> budget - header - mission >= MIN_INT64
  {
  }

  function Regular(cs: seq<Shard>): seq<Shard> {
    if cs == [] then []
    else
      var c, before := cs[|cs| - 1], Regular(cs[..|cs| - 1]);
      if c.kind != "prompt_section" then before + [c] else before
  }

  /** The regular candidates are all but those of prompt sections, in their order: `at` says which each one is. */
  lemma {:induction false} RegularAt(cs: seq<Shard>) returns (at: seq<nat>)
    ensures |at| == |Regular(cs)|
    ensures forall n :: 0 <= n < |at| ==> at[n] < |cs| && Regular(cs)[n] == cs[at[n]]
    ensures forall m, n :: 0 <= m < n < |at| ==> at[m] < at[n]
    ensures forall k :: 0 <= k < |cs| ==> (k in at <==> cs[k].kind != "prompt_section")
  {
    at := [];
    if cs != [] {
      var last := |cs| - 1;
      var init := cs[..last];
      assert forall k :: 0 <= k < last ==> init[k] == cs[k];
      at := RegularAt(init);
      if cs[last].kind != "prompt_section" { at := at + [last]; }
    }
  }

  lemma PinnedStep(names: seq<string>, cs: seq<Shard>, room: int, k: nat)
    requires k < |names|
    ensures PackPinned(names[..k + 1], cs, room) == Pin(PackPinned(names[..k], cs, room), names[k], cs, room)
  {
    assert names[..k + 1][..k] == names[..k];
  }

  method FindFit(candidates: seq<Shard>, name: string, remaining: int) returns (j: nat)
    ensures j == FirstFit(candidates, name, remaining, 0)
  {
    j := 0;
    while j < |candidates|
      invariant j <= |candidates|
      invariant FirstFit(candidates, name, remaining, j) == FirstFit(candidates, name, remaining, 0)
    {
      var c := candidates[j];
      if IsSection(c, name) && EstimateTokens(c.content) <= remaining { break; }
      j := j + 1;
    }
  }

  method PinSection(before: seq<PackedShard>, name: string, candidates: seq<Shard>, remaining: int, ghost room: int)
    returns (packed: seq<PackedShard>, tokens: nat)
    requires remaining == room - TotalTokens(before)
    ensures packed == Pin(before, name, candidates, room)
    ensures TotalTokens(packed) == TotalTokens(before) + tokens
  {
    var j := FindFit(candidates, name, remaining);
    if j == |candidates| { return before, 0; }
    TotalSnoc(before, Pinned(name, candidates[j]));
    return before + [Pinned(name, candidates[j])], EstimateTokens(candidates[j].content);
  }

  method PackPinnedSections(names: seq<string>, candidates: seq<Shard>, room: nat)
    returns (packed: seq<PackedShard>, shardTokens: nat, remaining: int)
    ensures packed == PackPinned(names, candidates, room)
    ensures shardTokens == TotalTokens(packed) && remaining == room - shardTokens
  {
    packed, shardTokens, remaining := [], 0, room;
    for i := 0 to |names|
      invariant packed == PackPinned(names[..i], candidates, room)
      invariant shardTokens == TotalTokens(packed) && remaining == room - shardTokens
    {
      PinnedStep(names, candidates, room, i);
      var tokens;
      packed, tokens := PinSection(packed, names[i], candidates, remaining, room);
      shardTokens := shardTokens + tokens;
      remaining := remaining - tokens;
    }
    assert names[..|names|] == names;
  }

  lemma RankedStep(scored: seq<ScoredShard>, room: int, k: nat)
    requires k < |scored|
    ensures var before := PackRanked(scored[..k], room);
      PackRanked(scored[..k + 1], room)
      == if scored[k].tokens <= room - TotalTokens(before) then before + [Ranked(scored[k])] else before
  {
    assert scored[..k + 1][..k] == scored[..k];
  }

  method PackScored(scored: seq<ScoredShard>, room: int)
    returns (packed: seq<PackedShard>, shardTokens: nat, dropped: nat)
    requires forall k :: 0 <= k < |scored| ==> scored[k].tokens > 0
    ensures packed == PackRanked(scored, room) && shardTokens == TotalTokens(packed)
    ensures |packed| + dropped == |scored|
  {
    packed, shardTokens, dropped := [], 0, 0;
    var remaining := room;
    for k := 0 to |scored|
      invariant packed == PackRanked(scored[..k], room)
      invariant shardTokens == TotalTokens(packed) && remaining == room - shardTokens && |packed| + dropped == k
    {
      RankedStep(scored, room, k);
      var ss := scored[k];
      if remaining <= 0 {
        dropped := dropped + 1;
        continue;
      }
      if ss.tokens > remaining {
        dropped := dropped + 1;
        continue;
      }
      TotalSnoc(packed, Ranked(ss));
      packed := packed + [Ranked(ss)];
      shardTokens := shardTokens + ss.tokens;
      remaining := remaining - ss.tokens;
    }
    assert scored[..|scored|] == scored;
  }

  method SelectRegular(candidates: seq<Shard>) returns (r: seq<Shard>)
    ensures r == Regular(candidates)
  {
    r := [];
    for k := 0 to |candidates|
      invariant r == Regular(candidates[..k])
    {
      assert candidates[..k + 1][..k] == candidates[..k];
      if candidates[k].kind != "prompt_section" { r := r + [candidates[k]]; }
    }
    assert candidates[..|candidates|] == candidates;
  }

  /** The pinned sections, then the ranked shards in what they leave. */
  function Pack(names: seq<string>, cs: seq<Shard>, scored: seq<ScoredShard>, room: nat): seq<PackedShard> {
    var pins := PackPinned(names, cs, room);
    pins + PackRanked(scored, room - TotalTokens(pins))
  }

  /** The pinned sections are packed first, with all the room, and the ranked shards with what they leave of it. */
  lemma PackIs(names: seq<string>, cs: seq<Shard>, scored: seq<ScoredShard>, room: nat)
    ensures Pack(names, cs, scored, room)
      == PackPinned(names, cs, room) + PackRanked(scored, room - TotalTokens(PackPinned(names, cs, room)))
  {
  }

  lemma RankedFitAfter(pins: seq<PackedShard>, scored: seq<ScoredShard>, room: nat, left: nat)
    requires left == room - TotalTokens(pins)
    ensures TotalTokens(pins + PackRanked(scored, left)) <= room
  {
    var rest := PackRanked(scored, left);
    RankedFit(scored, left);
    TotalJoin(pins, rest);
  }

  /** Packing conserves the room. */
  lemma PackFits(names: seq<string>, cs: seq<Shard>, scored: seq<ScoredShard>, room: nat)
    ensures TotalTokens(Pack(names, cs, scored, room)) <= room
  {
    var pins := PackPinned(names, cs, room);
    PinnedFit(names, cs, room);
    RankedFitAfter(pins, scored, room, room - TotalTokens(pins));
  }

  method PackAll(names: seq<string>, candidates: seq<Shard>, scored: seq<ScoredShard>, room: nat)
    returns (packed: seq<PackedShard>, shardTokens: nat, dropped: nat)
    requires forall k :: 0 <= k < |scored| ==> scored[k].tokens > 0
    ensures packed == Pack(names, candidates, scored, room)
    ensures shardTokens == TotalTokens(packed)
    ensures |packed| + dropped == |PackPinned(names, candidates, room)| + |scored|
  {
    var pins, pinTokens, left := PackPinnedSections(names, candidates, room);
    assert left == room - TotalTokens(pins);
    var rest, restTokens, notPacked := PackScored(scored, left);
    TotalJoin(pins, rest);
    packed, shardTokens, dropped := pins + rest, pinTokens + restTokens, notPacked;
  }

  method RoomFor(budget: int, headerTokens: nat, missionTokens: nat) returns (remaining: nat)
    ensures remaining == Room(budget, headerTokens, missionTokens)
  {
    var left := Wrap1(Wrap1(budget - headerTokens) - missionTokens);
    if left < 0 { left := 0; }
    return left;
  }

  /** The names by which the candidates of the pinned sections are known. */
  function SectionNames(pinned: seq<int>): (names: seq<string>)
    ensures |names| == |pinned|
    ensures forall k {:trigger names[k]} :: 0 <= k < |pinned| ==> names[k] == "section_" + IntText(pinned[k])
  {
    seq(|pinned|, k requires 0 <= k < |pinned| => "section_" + IntText(pinned[k]))
  }

  /** CompileWithPromptRef, given header, mission as JSON and pinned sections; scored is the ranking used. */
  method Compile(header: string, mission: string, budget: int, candidates: seq<Shard>, pinned: seq<int>)
    returns (packed: seq<PackedShard>, meta: BudgetMeta, ghost scored: seq<ScoredShard>)
    requires IsInt64(budget) && EstimateTokens(header) + EstimateTokens(mission) <= MAX_INT64
    ensures multiset(scored) == multiset(Deduplicated(Regular(candidates))) && Descending(scored)
    ensures forall k :: 0 <= k < |scored| ==> scored[k] == Scored(scored[k].shard)
    ensures var room := Room(budget, EstimateTokens(header), EstimateTokens(mission));
      && packed == Pack(SectionNames(pinned), candidates, scored, room)
      && meta.shardTokens == TotalTokens(packed) <= room
      && |packed| + meta.shardsDropped == |PackPinned(SectionNames(pinned), candidates, room)| + |scored|
    ensures meta.headerTokens == EstimateTokens(header) && meta.missionTokens == EstimateTokens(mission)
    ensures meta.totalTokens == meta.headerTokens + meta.missionTokens + meta.shardTokens
    ensures meta.tokenBudget == budget && meta.shardsIncluded == |packed|
  {
    var headerTokens, missionTokens := EstimateTokens(header), EstimateTokens(mission);
    var remaining := RoomFor(budget, headerTokens, missionTokens);
    var regular := SelectRegular(candidates);
    var ranked := ScoreShards(regular);
    var shardTokens, dropped;
    packed, shardTokens, dropped := PackAll(SectionNames(pinned), candidates, ranked, remaining);
    PackFits(SectionNames(pinned), candidates, ranked, remaining);
    scored := ranked;
    meta := BudgetMeta(budget, headerTokens, missionTokens, shardTokens, headerTokens + missionTokens + shardTokens,
      |packed|, dropped);
  }

  /** A pack stays within its budget exactly when header and mission do. */
  lemma BudgetKept(budget: int, header: nat, mission: nat, shards: nat)
    requires IsInt64(budget) && header + mission <= MAX_INT64 && budget - header - mission >= MIN_INT64
    requires shards <= Room(budget, header, mission)
    ensures header + mission + shards <= budget <==> header + mission <= budget
  {
    RoomIff(budget, header, mission);
  }
}
