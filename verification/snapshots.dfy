/** Snapshots of versioned documents and their result caches, under any interleaving of
    callers and updates (query/snapshot.go). */
module Snapshots {
  import opened Collections

  datatype Document = Document(uri: string, version: int, text: string)

  /** What a result is cached under. Options stand for their digest. */
  datatype Key = Key(uri: string, version: int, options: nat)

  datatype ReuseKey = ReuseKey(uri: string, options: nat)

  /** Results are objects; a number names each one ever made. */
  type ResultId = nat

  datatype Snapshot = Snapshot(docs: map<string, Document>, cache: map<Key, ResultId>, prior: map<ReuseKey, ResultId>)

  /** Every cached result is of the document's current version. */
  predicate Current(s: Snapshot) {
    && (forall u :: u in s.docs ==> s.docs[u].uri == u)
    && forall k :: k in s.cache ==> k.uri in s.docs && s.docs[k.uri].version == k.version
  }

  predicate Accepts(s: Snapshot, d: Document) {
    d.uri in s.docs ==> d.version > s.docs[d.uri].version
  }

  /** Of some keys, the cached results of other documents. */
  ghost function Rest(s: Snapshot, uri: string, keys: set<Key>): map<Key, ResultId> {
    map k | k in keys && k in s.cache && k.uri != uri :: s.cache[k]
  }

  /** Of some keys, the cached results of one document, by their options alone: all are
      of its current version. */
  ghost function Reusable(s: Snapshot, uri: string, keys: set<Key>): map<ReuseKey, ResultId>
    requires Current(s)
  {
    map r | r in ReuseKeys(s, uri, keys) :: s.cache[Key(uri, s.docs[uri].version, r.options)]
  }

  ghost function ReuseKeys(s: Snapshot, uri: string, keys: set<Key>): (rs: set<ReuseKey>)
    requires Current(s)
    ensures forall r :: r in rs ==>
              r.uri == uri && uri in s.docs && Key(uri, s.docs[uri].version, r.options) in s.cache
  {
    set k | k in keys && k in s.cache && k.uri == uri :: ReuseKey(k.uri, k.options)
  }

  /** The snapshot after an update: other documents keep their results, and those of the
      updated document become what its next analysis may build on. */
  ghost function Updated(s: Snapshot, d: Document): Snapshot
    requires Current(s)
  {
    Snapshot(s.docs[d.uri := d], Rest(s, d.uri, s.cache.Keys), Reusable(s, d.uri, s.cache.Keys))
  }

  /** The update's loop over the cache, in whatever order the map is walked. */
  method Update(s: Snapshot, d: Document) returns (next: Snapshot, accepted: bool)
    requires Current(s)
    ensures accepted == Accepts(s, d)
    ensures next == if accepted then Updated(s, d) else s
    ensures Current(next)
  {
    hide Rest, Reusable;
    if d.uri in s.docs && d.version <= s.docs[d.uri].version {
      return s, false;
    }
    var cache: map<Key, ResultId> := map[];
    var prior: map<ReuseKey, ResultId> := map[];
    var left := s.cache.Keys;
    ghost var done: set<Key> := {};
    NoKeys(s, d.uri);
    while left != {}
      invariant left + done == s.cache.Keys
      invariant cache == Rest(s, d.uri, done) && prior == Reusable(s, d.uri, done)
      decreases |left|
    {
      var key := Pick(left);
      OneMoreKey(s, d.uri, done, key);
      left, done := left - {key}, done + {key};
      if key.uri != d.uri {
        cache := cache[key := s.cache[key]];
      } else {
        prior := prior[ReuseKey(key.uri, key.options) := s.cache[key]];
      }
    }
    assert done == s.cache.Keys;
    UpdatedIsCurrent(s, d);
    next, accepted := Snapshot(s.docs[d.uri := d], cache, prior), true;
  }

  lemma {:induction false} NoKeys(s: Snapshot, uri: string)
    requires Current(s)
    ensures Rest(s, uri, {}) == map[] && Reusable(s, uri, {}) == map[]
  {
  }

  lemma {:induction false} OneMoreKey(s: Snapshot, uri: string, done: set<Key>, key: Key)
    requires Current(s) && key in s.cache
    ensures
      if key.uri != uri then
        && Rest(s, uri, done + {key}) == Rest(s, uri, done)[key := s.cache[key]]
        && Reusable(s, uri, done + {key}) == Reusable(s, uri, done)
      else
        && Rest(s, uri, done + {key}) == Rest(s, uri, done)
        && Reusable(s, uri, done + {key}) == Reusable(s, uri, done)[ReuseKey(key.uri, key.options) := s.cache[key]]
  {
    var more := ReuseKeys(s, uri, done + {key});
    if key.uri != uri {
      assert more == ReuseKeys(s, uri, done);
    } else {
      assert key == Key(uri, s.docs[uri].version, key.options);
      assert more == ReuseKeys(s, uri, done) + {ReuseKey(key.uri, key.options)};
    }
  }

  lemma {:induction false} UpdatedIsCurrent(s: Snapshot, d: Document)
    requires Current(s)
    ensures Current(Updated(s, d))
  {
  }

  // ---- Concurrent callers ----

  datatype Phase = Reading | Computing | Computed(result: ResultId) | Done(result: ResultId) | Failed

  /** A call for a document of one snapshot, with options. */
  datatype Caller = Caller(snapshot: nat, uri: string, options: nat, phase: Phase)

  /** Where a snapshot came from: an earlier one and the document put into it. */
  datatype Birth = Original | Successor(parent: nat, document: Document)

  datatype World = World(
    snapshots: seq<Snapshot>, births: seq<Birth>, callers: map<nat, Caller>,
    made: seq<Key>, builtOn: seq<Option<ResultId>>)

  function KeyOf(w: World, c: Caller): Key
    requires c.snapshot < |w.snapshots| && c.uri in w.snapshots[c.snapshot].docs
  {
    Key(c.uri, w.snapshots[c.snapshot].docs[c.uri].version, c.options)
  }

  function SetPhase(w: World, id: nat, c: Caller, phase: Phase): World {
    w.(callers := w.callers[id := c.(phase := phase)])
  }

  /** An update by anyone makes a new snapshot, or none. */
  ghost predicate UpdateStep(w: World, w': World) {
    exists i: nat, d: Document :: UpdatesTo(w, w', i, d)
  }

  ghost predicate UpdatesTo(w: World, w': World, i: nat, d: Document) {
    && i < |w.snapshots| && Current(w.snapshots[i]) && Accepts(w.snapshots[i], d)
    && w' == w.(snapshots := w.snapshots + [Updated(w.snapshots[i], d)], births := w.births + [Successor(i, d)])
  }

  ghost predicate ArrivalStep(w: World, w': World, id: nat) {
    id !in w.callers && exists i: nat, uri: string, options: nat :: ArrivesAs(w, w', id, i, uri, options)
  }

  ghost predicate ArrivesAs(w: World, w': World, id: nat, i: nat, uri: string, options: nat) {
    && i < |w.snapshots|
    && w' == w.(callers := w.callers[id := Caller(i, uri, options, if uri in w.snapshots[i].docs then Reading else Failed)])
  }

  /** A call reads the cache under the lock, analyses outside it, and publishes under it:
      whoever published first wins. An analysis may also fail. */
  ghost predicate CallerStep(w: World, w': World, id: nat, c: Caller)
    requires c.snapshot < |w.snapshots| && c.uri in w.snapshots[c.snapshot].docs
  {
    var s := w.snapshots[c.snapshot];
    var key := KeyOf(w, c);
    match c.phase
    case Reading =>
      w' == SetPhase(w, id, c, if key in s.cache then Done(s.cache[key]) else Computing)
    case Computing =>
      var reuse := ReuseKey(c.uri, c.options);
      var previous := if reuse in s.prior then Some(s.prior[reuse]) else None;
      || w' == SetPhase(w, id, c, Failed)
      || w' == SetPhase(w, id, c, Computed(|w.made|)).(made := w.made + [key], builtOn := w.builtOn + [previous])
    case Computed(r) =>
      if key in s.cache then w' == SetPhase(w, id, c, Done(s.cache[key]))
      else w' == SetPhase(w, id, c, Done(r)).(snapshots := w.snapshots[c.snapshot := s.(cache := s.cache[key := r])])
    case _ => false
  }

  ghost predicate Step(w: World, w': World, id: nat) {
    || UpdateStep(w, w')
    || ArrivalStep(w, w', id)
    || (id in w.callers && w.callers[id].snapshot < |w.snapshots|
        && w.callers[id].uri in w.snapshots[w.callers[id].snapshot].docs && CallerStep(w, w', id, w.callers[id]))
  }

  /** A single snapshot of some documents, nothing cached. */
  ghost predicate Init(w: World) {
    && |w.snapshots| == 1 && w.births == [Original] && w.callers == map[] && w.made == [] && w.builtOn == []
    && w.snapshots[0].cache == map[] && w.snapshots[0].prior == map[] && Current(w.snapshots[0])
  }

  // ---- What every reachable state keeps ----

  /** A cached result was made for its key, and the results a snapshot may build on are
      the ones its parent's cache holds for the version just before. */
  ghost predicate SnapshotOK(w: World, i: nat)
    requires i < |w.snapshots| == |w.births|
  {
    var s := w.snapshots[i];
    && Current(s)
    && (forall k :: k in s.cache ==> s.cache[k] < |w.made| && w.made[s.cache[k]] == k)
    && (match w.births[i]
        case Original => s.prior == map[]
        case Successor(p, d) =>
          && p < i && d.uri in s.docs && s.docs[d.uri] == d
          && forall r :: r in s.prior ==>
               && r.uri == d.uri && r.uri in w.snapshots[p].docs
               && w.snapshots[p].docs[r.uri].version < d.version
               && s.prior[r] < |w.made|
               && var key := Key(r.uri, w.snapshots[p].docs[r.uri].version, r.options);
               w.made[s.prior[r]] == key && key in w.snapshots[p].cache && w.snapshots[p].cache[key] == s.prior[r])
  }

  /** A finished call returned what its snapshot's cache holds for its key. */
  ghost predicate CallerOK(w: World, c: Caller) {
    && c.snapshot < |w.snapshots|
    && (c.phase != Failed ==> c.uri in w.snapshots[c.snapshot].docs)
    && match c.phase
       case Computed(r) => r < |w.made| && w.made[r] == KeyOf(w, c)
       case Done(r) =>
         var key := KeyOf(w, c);
         key in w.snapshots[c.snapshot].cache && w.snapshots[c.snapshot].cache[key] == r
       case _ => true
  }

  /** An analysis only ever built on a result for an earlier version of its document,
      with its options. */
  ghost predicate BuiltOK(w: World, r: nat)
    requires r < |w.made| == |w.builtOn|
  {
    w.builtOn[r].Some? ==>
      && w.builtOn[r].value < |w.made|
      && var was := w.made[w.builtOn[r].value];
      was.uri == w.made[r].uri && was.options == w.made[r].options && was.version < w.made[r].version
  }

  ghost predicate Inv(w: World) {
    && |w.births| == |w.snapshots| > 0 && |w.builtOn| == |w.made|
    && (forall i :: 0 <= i < |w.snapshots| ==> SnapshotOK(w, i))
    && (forall id :: id in w.callers ==> CallerOK(w, w.callers[id]))
    && (forall r :: 0 <= r < |w.made| ==> BuiltOK(w, r))
  }

  lemma {:induction false} InitKeepsInv(w: World)
    requires Init(w)
    ensures Inv(w)
  {
  }

  /** Snapshots only ever gain cached results and successors, and results only ever
      come to be. */
  ghost predicate Grown(w: World, w': World) {
    && |w.births| == |w.snapshots| <= |w'.snapshots| == |w'.births|
    && w.births <= w'.births && w.made <= w'.made
    && forall i :: 0 <= i < |w.snapshots| ==>
         && w'.snapshots[i].docs == w.snapshots[i].docs && w'.snapshots[i].prior == w.snapshots[i].prior
         && forall k :: k in w.snapshots[i].cache ==>
              k in w'.snapshots[i].cache && w'.snapshots[i].cache[k] == w.snapshots[i].cache[k]
  }

  lemma {:induction false} StepGrows(w: World, w': World, id: nat)
    requires |w.births| == |w.snapshots| && Step(w, w', id)
    ensures Grown(w, w')
  {
  }

  lemma {:induction false} CallerStays(w: World, w': World, c: Caller)
    requires Grown(w, w') && CallerOK(w, c)
    ensures CallerOK(w', c)
  {
  }

  lemma {:induction false} SnapshotStays(w: World, w': World, i: nat)
    requires Grown(w, w') && i < |w.snapshots| && SnapshotOK(w, i)
    requires w'.snapshots[i] == w.snapshots[i]
    ensures SnapshotOK(w', i)
  {
  }

  lemma {:induction false} SameResultsBuilt(w: World, w': World)
    requires |w.builtOn| == |w.made| && forall r :: 0 <= r < |w.made| ==> BuiltOK(w, r)
    requires w'.made == w.made && w'.builtOn == w.builtOn
    ensures forall r :: 0 <= r < |w'.made| ==> BuiltOK(w', r)
  {
    forall r | 0 <= r < |w'.made| ensures BuiltOK(w', r) {
      assert BuiltOK(w, r);
    }
  }

  lemma {:induction false} UpdateKeepsInv(w: World, w': World)
    requires Inv(w) && UpdateStep(w, w')
    ensures Inv(w')
  {
    hide SnapshotOK, CallerOK, Current, Updated;
    StepGrows(w, w', 0);
    var i: nat, d: Document :| UpdatesTo(w, w', i, d);
    forall j | 0 <= j < |w'.snapshots| ensures SnapshotOK(w', j) {
      if j < |w.snapshots| {
        SnapshotStays(w, w', j);
      } else {
        SuccessorIsOK(w, w', i, d);
      }
    }
    forall c | c in w'.callers ensures CallerOK(w', w'.callers[c]) {
      CallerStays(w, w', w.callers[c]);
    }
    SameResultsBuilt(w, w');
  }

  /** A new snapshot carries over the other documents' results and may build on the
      updated document's. */
  lemma {:induction false} SuccessorIsOK(w: World, w': World, i: nat, d: Document)
    requires |w.births| == |w.snapshots| && i < |w.snapshots| && SnapshotOK(w, i) && UpdatesTo(w, w', i, d)
    ensures SnapshotOK(w', |w.snapshots|)
  {
    UpdatedIsCurrent(w.snapshots[i], d);
  }

  lemma {:induction false} ArrivalKeepsInv(w: World, w': World, id: nat)
    requires Inv(w) && ArrivalStep(w, w', id)
    ensures Inv(w')
  {
    hide SnapshotOK;
    StepGrows(w, w', id);
    forall j | 0 <= j < |w'.snapshots| ensures SnapshotOK(w', j) {
      SnapshotStays(w, w', j);
    }
    forall c | c in w'.callers ensures CallerOK(w', w'.callers[c]) {
      if c != id {
        CallerStays(w, w', w.callers[c]);
      }
    }
    SameResultsBuilt(w, w');
  }

  lemma {:induction false} CallKeepsInv(w: World, w': World, id: nat)
    requires Inv(w) && id in w.callers && w.callers[id].snapshot < |w.snapshots|
    requires w.callers[id].uri in w.snapshots[w.callers[id].snapshot].docs
    requires CallerStep(w, w', id, w.callers[id])
    ensures Inv(w')
  {
    hide SnapshotOK, CallerOK;
    StepGrows(w, w', id);
    var c := w.callers[id];
    forall j | 0 <= j < |w'.snapshots| ensures SnapshotOK(w', j) {
      if w'.snapshots[j] == w.snapshots[j] {
        SnapshotStays(w, w', j);
      } else {
        PublishingKeepsSnapshot(w, w', id, c);
      }
    }
    forall x | x in w'.callers ensures CallerOK(w', w'.callers[x]) {
      if x != id {
        CallerStays(w, w', w.callers[x]);
      } else {
        CallerMovesOn(w, w', id, c);
      }
    }
    BuildsOnEarlier(w, w', id, c);
  }

  lemma {:induction false} BuildsOnEarlier(w: World, w': World, id: nat, c: Caller)
    requires |w.births| == |w.snapshots| && c.snapshot < |w.snapshots| && c.uri in w.snapshots[c.snapshot].docs
    requires SnapshotOK(w, c.snapshot) && CallerStep(w, w', id, c)
    requires |w.builtOn| == |w.made| && forall r :: 0 <= r < |w.made| ==> BuiltOK(w, r)
    ensures |w'.builtOn| == |w'.made| && forall r :: 0 <= r < |w'.made| ==> BuiltOK(w', r)
  {
    forall r | 0 <= r < |w'.made| && |w'.builtOn| == |w'.made| ensures BuiltOK(w', r) {
      if r < |w.made| {
        assert BuiltOK(w, r);
      }
    }
  }

  lemma {:induction false} PublishingKeepsSnapshot(w: World, w': World, id: nat, c: Caller)
    requires |w.births| == |w.snapshots| && c.snapshot < |w.snapshots| && c.uri in w.snapshots[c.snapshot].docs
    requires SnapshotOK(w, c.snapshot) && CallerOK(w, c) && CallerStep(w, w', id, c)
    ensures |w'.births| == |w'.snapshots| == |w.snapshots| && SnapshotOK(w', c.snapshot)
  {
  }

  lemma {:induction false} CallerMovesOn(w: World, w': World, id: nat, c: Caller)
    requires |w.births| == |w.snapshots| && c.snapshot < |w.snapshots| && c.uri in w.snapshots[c.snapshot].docs
    requires CallerOK(w, c) && CallerStep(w, w', id, c)
    ensures id in w'.callers && CallerOK(w', w'.callers[id])
  {
  }

  lemma {:induction false} StepKeepsInv(w: World, w': World, id: nat)
    requires Inv(w) && Step(w, w', id)
    ensures Inv(w')
  {
    hide Inv, CallerStep, ArrivalStep, UpdateStep;
    if UpdateStep(w, w') {
      UpdateKeepsInv(w, w');
    } else if ArrivalStep(w, w', id) {
      ArrivalKeepsInv(w, w', id);
    } else {
      CallKeepsInv(w, w', id);
    }
  }

  ghost predicate Run(ws: seq<World>, ids: seq<nat>) {
    && |ws| == |ids| + 1 && Init(ws[0])
    && forall i :: 0 <= i < |ids| ==> Step(ws[i], ws[i + 1], ids[i])
  }

  lemma {:induction false} RunKeepsInv(ws: seq<World>, ids: seq<nat>, n: nat)
    requires Run(ws, ids) && n <= |ids|
    ensures Inv(ws[n])
    decreases n
  {
    hide Step, Inv, Init;
    if n == 0 {
      InitKeepsInv(ws[0]);
    } else {
      RunKeepsInv(ws, ids, n - 1);
      assert Step(ws[n - 1], ws[n - 1 + 1], ids[n - 1]);
      StepKeepsInv(ws[n - 1], ws[n], ids[n - 1]);
    }
  }

  // ---- The theorems ----

  /** All finished calls for one document and one set of options on one snapshot return
      the same object, however they interleaved. */
  lemma {:induction false} SameKeySameResult(ws: seq<World>, ids: seq<nat>, a: nat, b: nat)
    requires Run(ws, ids)
    requires
      var w := ws[|ids|];
      && a in w.callers && b in w.callers && w.callers[a].phase.Done? && w.callers[b].phase.Done?
      && w.callers[a].snapshot == w.callers[b].snapshot
      && w.callers[a].uri == w.callers[b].uri && w.callers[a].options == w.callers[b].options
    ensures ws[|ids|].callers[a].phase.result == ws[|ids|].callers[b].phase.result
  {
    hide Step, SnapshotOK;
    RunKeepsInv(ws, ids, |ids|);
    assert CallerOK(ws[|ids|], ws[|ids|].callers[a]);
    assert CallerOK(ws[|ids|], ws[|ids|].callers[b]);
  }

  /** A finished call's result was made for the version its snapshot holds. */
  lemma {:induction false} ResultsAreOfTheVersion(ws: seq<World>, ids: seq<nat>, a: nat)
    requires Run(ws, ids) && a in ws[|ids|].callers && ws[|ids|].callers[a].phase.Done?
    ensures
      var w := ws[|ids|];
      var c := w.callers[a];
      && c.snapshot < |w.snapshots| && c.uri in w.snapshots[c.snapshot].docs
      && c.phase.result < |w.made| && w.made[c.phase.result] == KeyOf(w, c)
  {
    hide Step;
    RunKeepsInv(ws, ids, |ids|);
    assert CallerOK(ws[|ids|], ws[|ids|].callers[a]);
    assert SnapshotOK(ws[|ids|], ws[|ids|].callers[a].snapshot);
  }

  /** Every result a snapshot may build on is the one result of the version that its own
      document replaced: made for that version with the same options, held by the parent's
      cache, and returned by every call on the parent that asked for it. */
  lemma {:induction false} PriorIsThePrecedingVersion(ws: seq<World>, ids: seq<nat>, i: nat, r: ReuseKey)
    requires Run(ws, ids) && i < |ws[|ids|].snapshots| && r in ws[|ids|].snapshots[i].prior
    ensures
      var w := ws[|ids|];
      && i < |w.births| && w.births[i].Successor?
      && var parent := w.births[i].parent;
      && parent < i && r.uri in w.snapshots[parent].docs && r.uri in w.snapshots[i].docs
      && w.snapshots[parent].docs[r.uri].version < w.snapshots[i].docs[r.uri].version
      && w.snapshots[i].prior[r] < |w.made|
      && var key := Key(r.uri, w.snapshots[parent].docs[r.uri].version, r.options);
      && w.made[w.snapshots[i].prior[r]] == key
      && key in w.snapshots[parent].cache && w.snapshots[parent].cache[key] == w.snapshots[i].prior[r]
      && forall id :: id in w.callers && w.callers[id].phase.Done? && w.callers[id].snapshot == parent
                      && w.callers[id].uri == r.uri && w.callers[id].options == r.options ==>
           w.callers[id].phase.result == w.snapshots[i].prior[r]
  {
    hide Step;
    RunKeepsInv(ws, ids, |ids|);
    var w := ws[|ids|];
    assert SnapshotOK(w, i);
    forall id | id in w.callers ensures CallerOK(w, w.callers[id]) {
    }
  }

  /** No cached result is stale: its key carries the version the snapshot holds. */
  lemma {:induction false} CacheIsCurrent(ws: seq<World>, ids: seq<nat>, i: nat, k: Key)
    requires Run(ws, ids) && i < |ws[|ids|].snapshots| && k in ws[|ids|].snapshots[i].cache
    ensures
      var s := ws[|ids|].snapshots[i];
      k.uri in s.docs && s.docs[k.uri].version == k.version
  {
    hide Step, CallerOK;
    RunKeepsInv(ws, ids, |ids|);
    assert SnapshotOK(ws[|ids|], i);
  }

  /** Along any run, every analysis built on nothing or on a result made for an earlier
      version of the same document with the same options. */
  lemma {:induction false} AnalysesBuildOnEarlierVersions(ws: seq<World>, ids: seq<nat>, r: nat)
    requires Run(ws, ids) && r < |ws[|ids|].made|
    ensures
      var w := ws[|ids|];
      |w.builtOn| == |w.made| && BuiltOK(w, r)
  {
    hide Step, CallerOK, SnapshotOK, BuiltOK;
    RunKeepsInv(ws, ids, |ids|);
  }
}
