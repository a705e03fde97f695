/**
 * policy-upload.ts: loading the policy files of a folder into a map keyed by
 * policy id, and ordering them for upload so that every policy is uploaded
 * after the base policy it inherits from.
 *
 * File discovery, reading and XML parsing are parameters (`files`, `read`,
 * `parse`); the upload itself, over the network, is not modelled: the model
 * ends with the upload queue.
 */
module PolicyUpload {
  import opened Wrappers
  import opened OrderedMaps
  import opened PolicyXml

  /** `PolicyInfoObj`: what `loadPolicies` reads off a policy document. */
  datatype PolicyInfo = PolicyInfo(policyId: string, basePolicyId: string, tenantId: string)

  /** `IPolicy`: a loaded policy file, with the flag `queuePolicyForUpload` sets. */
  class UploadPolicy {
    const policyInfo: PolicyInfo
    const xmlData: string
    var queued: bool

    constructor (policyInfo: PolicyInfo, xmlData: string)
      ensures this.policyInfo == policyInfo && this.xmlData == xmlData && !queued
    {
      this.policyInfo := policyInfo;
      this.xmlData := xmlData;
      queued := false;
    }
  }

  datatype UploadError =
    /** A file could not be read, or its text has no document element: `loadPolicies` throws. */
    | LoadFailed
    /** No file carries both a policy id and a tenant id. */
    | NoPoliciesFound

  // ---------------------------------------------------------------------------
  // loadPolicies (lines 94-138)
  // ---------------------------------------------------------------------------

  /**
   * Lines 102-119: the record of one document. A document whose root lacks a
   * truthy `PolicyId` or `TenantId` gives none (the file is skipped); the base
   * id is the text of the first `PolicyId` element, or `''` without one.
   */
  function ExtractInfo(doc: PolicyDocument): (info: Option<PolicyInfo>)
    ensures info.Some? <==> Truthy(doc.rootPolicyId) && Truthy(doc.rootTenantId)
    ensures info.Some? ==> && info.value.policyId == doc.rootPolicyId.value && info.value.policyId != ""
                           && info.value.tenantId == doc.rootTenantId.value
    ensures info.Some? && doc.basePolicyId.Some? ==> info.value.basePolicyId == doc.basePolicyId.value
    ensures info.Some? && doc.basePolicyId.None? ==> info.value.basePolicyId == ""
  {
    if !Truthy(doc.rootPolicyId) || !Truthy(doc.rootTenantId) then None
    else
      var base := if doc.basePolicyId.Some? then doc.basePolicyId.value else "";
      Some(PolicyInfo(doc.rootPolicyId.value, base, doc.rootTenantId.value))
  }

  /** The text of one file and its parsed document; None when either step throws. */
  function ReadSource(path: string, read: string -> Option<string>, parse: string -> Option<PolicyDocument>)
    : Option<(string, PolicyDocument)>
  {
    match read(path)
    case None => None
    case Some(text) =>
      match parse(text)
      case None => None
      case Some(doc) => Some((text, doc))
  }

  function Sources(files: seq<string>, read: string -> Option<string>, parse: string -> Option<PolicyDocument>)
    : (sources: seq<Option<(string, PolicyDocument)>>)
    ensures |sources| == |files| && forall i :: 0 <= i < |files| ==> sources[i] == ReadSource(files[i], read, parse)
  {
    seq(|files|, i requires 0 <= i < |files| => ReadSource(files[i], read, parse))
  }

  /** The id a source is entered under, if it has a record. */
  function SourceId(source: Option<(string, PolicyDocument)>): Option<string> {
    if source.Some? && ExtractInfo(source.value.1).Some? then Some(ExtractInfo(source.value.1).value.policyId) else None
  }

  function SourceIds(sources: seq<Option<(string, PolicyDocument)>>): (ids: seq<Option<string>>)
    ensures |ids| == |sources| && forall i :: 0 <= i < |sources| ==> ids[i] == SourceId(sources[i])
  {
    seq(|sources|, i requires 0 <= i < |sources| => SourceId(sources[i]))
  }

  /** The key order and, for each id, the position of the file whose record the map holds. */
  function LoadIndex(sources: seq<Option<(string, PolicyDocument)>>): OrderedMap<nat> {
    IndexOf(SourceIds(sources))
  }

  /** `p` is the entry `loadPolicies` makes for `source`. */
  predicate Holds(p: UploadPolicy, source: Option<(string, PolicyDocument)>) {
    source.Some? && ExtractInfo(source.value.1) == Some(p.policyInfo) && p.xmlData == source.value.0
  }

  /** The map holds, under each id, the record of the last file carrying that id, in first-occurrence key order. */
  ghost predicate LoadedFrom(policies: OrderedMap<UploadPolicy>, sources: seq<Option<(string, PolicyDocument)>>, index: OrderedMap<nat>) {
    && policies.Valid()
    && policies.keys == index.keys && policies.entries.Keys == index.entries.Keys
    && forall k :: k in policies.entries ==> HoldsAt(policies.entries[k], sources, index.entries[k])
  }

  /** `p` is the entry made for the file at position `i`. */
  predicate HoldsAt(p: UploadPolicy, sources: seq<Option<(string, PolicyDocument)>>, i: nat) {
    i < |sources| && Holds(p, sources[i])
  }

  ghost predicate Unqueued(policies: OrderedMap<UploadPolicy>)
    reads policies.entries.Values
  {
    forall p :: p in policies.entries.Values ==> !p.queued
  }

  /**
   * `loadPolicies`: one fresh, unqueued entry per file with a record, a later
   * file overwriting an earlier one with the same id; the whole load fails
   * when any file cannot be read or parsed.
   */
  method LoadPolicies(files: seq<string>, read: string -> Option<string>, parse: string -> Option<PolicyDocument>)
      returns (r: Result<OrderedMap<UploadPolicy>, UploadError>)
    ensures r.Failure? <==> exists i :: 0 <= i < |files| && ReadSource(files[i], read, parse).None?
    ensures r.Failure? ==> r.error == LoadFailed
    ensures r.Success? ==> LoadedFrom(r.value, Sources(files, read, parse), LoadIndex(Sources(files, read, parse)))
    ensures r.Success? ==> Unqueued(r.value) && fresh(r.value.entries.Values)
  {
    ghost var sources := Sources(files, read, parse);
    ghost var ids := SourceIds(sources);
    var result: OrderedMap<UploadPolicy> := Empty();
    for i := 0 to |files|
      invariant ReadableBefore(sources, i)
      invariant LoadedFrom(result, sources, IndexOf(ids[..i]))
      invariant Unqueued(result) && fresh(result.entries.Values)
    {
      var text := read(files[i]);
      if text.None? {
        assert sources[i].None?;
        return Failure(LoadFailed);
      }
      var doc := parse(text.value);
      if doc.None? {
        assert sources[i].None?;
        return Failure(LoadFailed);
      }
      assert sources[i] == Some((text.value, doc.value));
      ReadableGrow(sources, i);
      var info := ExtractInfo(doc.value);
      if info.Some? {
        var policy := new UploadPolicy(info.value, text.value);
        LoadedSet(result, sources, ids, i, policy);
        result.SetValues(info.value.policyId, policy);
        result := result.Set(info.value.policyId, policy);
      } else {
        LoadedSkip(result, sources, ids, i);
      }
    }
    assert ids[..|files|] == ids;
    return Success(result);
  }

  /** The files before position `n` could all be read and parsed. */
  ghost predicate ReadableBefore(sources: seq<Option<(string, PolicyDocument)>>, n: nat) {
    forall j :: 0 <= j < n && j < |sources| ==> sources[j].Some?
  }

  lemma ReadableGrow(sources: seq<Option<(string, PolicyDocument)>>, n: nat)
    requires ReadableBefore(sources, n) && n < |sources| && sources[n].Some?
    ensures ReadableBefore(sources, n + 1)
  {
  }

  /** A file without a record leaves the map as it was. */
  lemma LoadedSkip(policies: OrderedMap<UploadPolicy>, sources: seq<Option<(string, PolicyDocument)>>,
                   ids: seq<Option<string>>, i: nat)
    requires ids == SourceIds(sources) && i < |sources|
    requires LoadedFrom(policies, sources, IndexOf(ids[..i])) && SourceId(sources[i]).None?
    ensures LoadedFrom(policies, sources, IndexOf(ids[..i + 1]))
  {
    IndexOfSnoc(ids, i);
  }

  /** A file with a record is entered under its id, replacing any earlier entry. */
  lemma LoadedSet(policies: OrderedMap<UploadPolicy>, sources: seq<Option<(string, PolicyDocument)>>,
                  ids: seq<Option<string>>, i: nat, p: UploadPolicy)
    requires ids == SourceIds(sources) && i < |sources|
    requires LoadedFrom(policies, sources, IndexOf(ids[..i])) && Holds(p, sources[i])
    ensures LoadedFrom(policies.Set(p.policyInfo.policyId, p), sources, IndexOf(ids[..i + 1]))
  {
    HoldsId(p, sources[i]);
    IndexOfSnoc(ids, i);
    LoadedSetIndex(policies, sources, IndexOf(ids[..i]), i, p);
  }

  lemma HoldsId(p: UploadPolicy, source: Option<(string, PolicyDocument)>)
    requires Holds(p, source)
    ensures SourceId(source) == Some(p.policyInfo.policyId)
  {
  }

  lemma LoadedSetIndex(policies: OrderedMap<UploadPolicy>, sources: seq<Option<(string, PolicyDocument)>>,
                       index: OrderedMap<nat>, i: nat, p: UploadPolicy)
    requires LoadedFrom(policies, sources, index) && i < |sources| && Holds(p, sources[i])
    ensures LoadedFrom(policies.Set(p.policyInfo.policyId, p), sources, index.Set(p.policyInfo.policyId, i))
  {
    var k := p.policyInfo.policyId;
    var policies', index' := policies.Set(k, p), index.Set(k, i);
    forall j | j in policies'.entries
      ensures HoldsAt(policies'.entries[j], sources, index'.entries[j])
    {
      if j != k {
        assert policies'.entries[j] == policies.entries[j] && index'.entries[j] == index.entries[j];
      }
    }
  }

  // ---------------------------------------------------------------------------
  // queuePolicyForUpload (lines 73-92)
  // ---------------------------------------------------------------------------

  /** Each entry is stored under its own id. */
  predicate Keyed(policies: OrderedMap<UploadPolicy>) {
    forall k :: k in policies.entries ==> policies.entries[k].policyInfo.policyId == k
  }

  /** Lines 83-85: the entry a policy's non-empty base id names, if the map has one. */
  function Base(p: UploadPolicy, policies: OrderedMap<UploadPolicy>): (b: UploadPolicy?)
    ensures b != null <==> p.policyInfo.basePolicyId != "" && p.policyInfo.basePolicyId in policies.entries
    ensures b != null ==> b == policies.entries[p.policyInfo.basePolicyId]
  {
    var id := p.policyInfo.basePolicyId;
    if id != "" && id in policies.entries then policies.entries[id] else null
  }

  /**
   * The base links are acyclic: a rank per id that every resolved base id is
   * below. `queuePolicyForUpload` has no cycle guard and recurses without end
   * on a cycle, so this is what its callers must provide.
   */
  predicate Acyclic(policies: OrderedMap<UploadPolicy>, rank: map<string, nat>) {
    forall k :: k in policies.entries ==>
      && k in rank
      && var b := policies.entries[k].policyInfo.basePolicyId;
         b != "" && b in policies.entries ==> b in rank && rank[b] < rank[k]
  }

  /** The `queued` flags mark exactly the queued entries. */
  ghost predicate Flags(policies: OrderedMap<UploadPolicy>, queue: seq<UploadPolicy>)
    reads policies.entries.Values
  {
    forall p :: p in policies.entries.Values ==> (p.queued <==> p in queue)
  }

  /**
   * What one `queuePolicyForUpload(p)` appends to `queue`: nothing when `p`
   * is queued; otherwise the chain for its base, when that base is in the map
   * and not queued, and then `p` itself.
   */
  function Chain(p: UploadPolicy, policies: OrderedMap<UploadPolicy>, queue: seq<UploadPolicy>, rank: map<string, nat>)
      : (c: seq<UploadPolicy>)
    requires p in policies.entries.Values && Keyed(policies) && Acyclic(policies, rank)
    ensures c == [] <==> p in queue
    ensures c != [] ==> c[|c| - 1] == p
    ensures forall x :: x in c ==>
      x in policies.entries.Values && x !in queue && rank[x.policyInfo.policyId] <= rank[p.policyInfo.policyId]
    decreases rank[p.policyInfo.policyId]
  {
    if p in queue then []
    else
      var b := Base(p, policies);
      (if b != null && b !in queue then Chain(b, policies, queue, rank) else []) + [p]
  }

  /** Every queued entry is in the map, is queued once, and comes after its base. */
  predicate QueueShape(queue: seq<UploadPolicy>, policies: OrderedMap<UploadPolicy>) {
    && (forall i, j :: 0 <= i < j < |queue| ==> queue[i] != queue[j])
    && (forall i :: 0 <= i < |queue| ==> queue[i] in policies.entries.Values)
    && BaseFirst(queue, policies)
  }

  predicate BaseFirst(queue: seq<UploadPolicy>, policies: OrderedMap<UploadPolicy>) {
    forall i :: 0 <= i < |queue| && Base(queue[i], policies) != null ==> Base(queue[i], policies) in queue[..i]
  }

  /**
   * Appending a chain keeps the queue's shape, and leaves `p` queued: the
   * chain's entries are new to the queue, distinct, and each comes after its
   * base.
   */
  lemma {:induction false} ChainShape(p: UploadPolicy, policies: OrderedMap<UploadPolicy>, queue: seq<UploadPolicy>,
                                      rank: map<string, nat>)
    requires p in policies.entries.Values && Keyed(policies) && Acyclic(policies, rank)
    requires QueueShape(queue, policies)
    ensures QueueShape(queue + Chain(p, policies, queue, rank), policies)
    ensures p in queue + Chain(p, policies, queue, rank)
    decreases rank[p.policyInfo.policyId]
  {
    if p !in queue {
      var b := Base(p, policies);
      var front := if b != null && b !in queue then Chain(b, policies, queue, rank) else [];
      if b != null && b !in queue {
        ChainShape(b, policies, queue, rank);
      } else {
        assert queue + front == queue;
      }
      var q1 := queue + front;
      assert p !in q1 by {
        if b != null {
          assert rank[b.policyInfo.policyId] < rank[p.policyInfo.policyId];
        }
      }
      AppendShape(q1, p, policies);
      assert q1 + [p] == queue + Chain(p, policies, queue, rank);
    } else {
      assert queue + Chain(p, policies, queue, rank) == queue;
    }
  }

  /** Appending a new entry whose base, if any, is queued keeps the queue's shape. */
  lemma AppendShape(queue: seq<UploadPolicy>, p: UploadPolicy, policies: OrderedMap<UploadPolicy>)
    requires QueueShape(queue, policies) && p in policies.entries.Values && p !in queue
    requires Base(p, policies) != null ==> Base(p, policies) in queue
    ensures QueueShape(queue + [p], policies)
  {
    var q := queue + [p];
    assert q[..|queue|] == queue;
    forall i | 0 <= i < |q| && Base(q[i], policies) != null
      ensures Base(q[i], policies) in q[..i]
    {
      if i < |queue| {
        assert q[..i] == queue[..i];
      }
    }
  }

  /**
   * `queuePolicyForUpload`: appends `Chain(policy, ...)` to the queue and sets
   * the flag of every entry it appends. A queued policy leaves the queue and
   * every flag as they were.
   */
  method QueuePolicyForUpload(policy: UploadPolicy, policies: OrderedMap<UploadPolicy>, queue: seq<UploadPolicy>,
                              ghost rank: map<string, nat>)
      returns (queue': seq<UploadPolicy>)
    requires policy in policies.entries.Values && Keyed(policies) && Acyclic(policies, rank)
    requires Flags(policies, queue)
    modifies policies.entries.Values`queued
    ensures queue' == queue + Chain(policy, policies, queue, rank)
    ensures Flags(policies, queue')
    decreases rank[policy.policyInfo.policyId]
  {
    if policy.queued {
      return queue;
    }
    queue' := queue;
    if policy.policyInfo.basePolicyId != "" {
      if policy.policyInfo.basePolicyId in policies.entries {
        var basePolicy := policies.entries[policy.policyInfo.basePolicyId];
        if !basePolicy.queued {
          queue' := QueuePolicyForUpload(basePolicy, policies, queue', rank);
        }
      }
    }
    queue' := queue' + [policy];
    policy.queued := true;
  }

  // ---------------------------------------------------------------------------
  // PolicyUpload (lines 24-71)
  // ---------------------------------------------------------------------------

  /** Every policy of `ps` is an entry of the map. */
  predicate InMap(ps: seq<UploadPolicy>, policies: OrderedMap<UploadPolicy>) {
    forall i :: 0 <= i < |ps| ==> ps[i] in policies.entries.Values
  }

  lemma ValuesInMap(policies: OrderedMap<UploadPolicy>)
    requires policies.Valid()
    ensures InMap(policies.Values(), policies)
  {
  }

  /** The queue after the loop of lines 48-50 has run over `ps`, one chain per entry. */
  function UploadOrder(ps: seq<UploadPolicy>, policies: OrderedMap<UploadPolicy>, rank: map<string, nat>)
      : seq<UploadPolicy>
    requires InMap(ps, policies)
    requires Keyed(policies) && Acyclic(policies, rank)
    decreases |ps|
  {
    if ps == [] then []
    else
      var n := |ps| - 1;
      var queue := UploadOrder(ps[..n], policies, rank);
      queue + Chain(ps[n], policies, queue, rank)
  }

  /** The loop's queue has the shape of an upload queue, and holds every entry it ran over. */
  lemma {:induction false} UploadOrderShape(ps: seq<UploadPolicy>, policies: OrderedMap<UploadPolicy>, rank: map<string, nat>)
    requires InMap(ps, policies)
    requires Keyed(policies) && Acyclic(policies, rank)
    ensures QueueShape(UploadOrder(ps, policies, rank), policies)
    ensures forall i :: 0 <= i < |ps| ==> ps[i] in UploadOrder(ps, policies, rank)
    decreases |ps|
  {
    if ps != [] {
      var n := |ps| - 1;
      InMapPrefix(ps, n, policies);
      var queue := UploadOrder(ps[..n], policies, rank);
      UploadOrderShape(ps[..n], policies, rank);
      ChainShape(ps[n], policies, queue, rank);
      forall i | 0 <= i < |ps|
        ensures ps[i] in UploadOrder(ps, policies, rank)
      {
        if i < n {
          assert ps[..n][i] == ps[i];
        }
      }
    }
  }

  lemma InMapPrefix(ps: seq<UploadPolicy>, n: nat, policies: OrderedMap<UploadPolicy>)
    requires InMap(ps, policies) && n <= |ps|
    ensures InMap(ps[..n], policies)
    ensures n < |ps| ==> ps[n] in policies.entries.Values
  {
    assert forall i :: 0 <= i < n ==> ps[..n][i] == ps[i];
  }

  /** One more turn of the loop appends the chain of the next policy. */
  lemma UploadOrderStep(ps: seq<UploadPolicy>, n: nat, policies: OrderedMap<UploadPolicy>, rank: map<string, nat>)
    requires InMap(ps, policies) && n < |ps| && Keyed(policies) && Acyclic(policies, rank)
    ensures InMap(ps[..n], policies) && InMap(ps[..n + 1], policies) && ps[n] in policies.entries.Values
    ensures UploadOrder(ps[..n + 1], policies, rank)
         == UploadOrder(ps[..n], policies, rank) + Chain(ps[n], policies, UploadOrder(ps[..n], policies, rank), rank)
  {
    InMapPrefix(ps, n, policies);
    InMapPrefix(ps, n + 1, policies);
    assert ps[..n + 1][..n] == ps[..n];
  }

  /**
   * Lines 46-50, with an acyclic, keyed map whose entries start unqueued: the
   * queue lists every entry of the map exactly once, each after its base, and
   * every entry ends up queued.
   */
  lemma UploadQueueSound(policies: OrderedMap<UploadPolicy>, rank: map<string, nat>)
    requires policies.Valid() && Keyed(policies) && Acyclic(policies, rank)
    ensures InMap(policies.Values(), policies)
    ensures var queue := UploadOrder(policies.Values(), policies, rank);
      && (forall i, j :: 0 <= i < j < |queue| ==> queue[i] != queue[j])
      && (forall p :: p in queue <==> p in policies.entries.Values)
      && BaseFirst(queue, policies)
  {
    ValuesInMap(policies);
    var queue := UploadOrder(policies.Values(), policies, rank);
    UploadOrderShape(policies.Values(), policies, rank);
    policies.ValuesCover();
    forall p | p in queue
      ensures p in policies.entries.Values
    {
      var i :| 0 <= i < |queue| && queue[i] == p;
    }
  }

  /** Lines 46-50: every map entry, in map order, goes through `queuePolicyForUpload`. */
  method QueueAll(policies: OrderedMap<UploadPolicy>, ghost rank: map<string, nat>) returns (queue: seq<UploadPolicy>)
    requires policies.Valid() && Keyed(policies) && Acyclic(policies, rank)
    requires Unqueued(policies)
    modifies policies.entries.Values`queued
    ensures queue == UploadOrder(policies.Values(), policies, rank)
    ensures forall p :: p in policies.entries.Values ==> p.queued
  {
    var values := policies.Values();
    ValuesInMap(policies);
    InMapPrefix(values, 0, policies);
    queue := [];
    for i := 0 to |values|
      invariant InMap(values[..i], policies)
      invariant queue == UploadOrder(values[..i], policies, rank)
      invariant Flags(policies, queue)
    {
      UploadOrderStep(values, i, policies, rank);
      queue := QueuePolicyForUpload(values[i], policies, queue, rank);
    }
    assert values[..|values|] == values;
    UploadQueueSound(policies, rank);
  }

  /** The base links of the loaded records are acyclic: a rank per loaded id that every loaded base id is below. */
  ghost predicate AcyclicSources(sources: seq<Option<(string, PolicyDocument)>>, rank: map<string, nat>) {
    var index := LoadIndex(sources);
    forall k :: k in index.entries ==>
      && k in rank
      && (index.entries[k] < |sources| && sources[index.entries[k]].Some? && ExtractInfo(sources[index.entries[k]].value.1).Some? ==>
            var b := ExtractInfo(sources[index.entries[k]].value.1).value.basePolicyId;
            b != "" && b in index.entries ==> b in rank && rank[b] < rank[k])
  }

  /**
   * What `PolicyUpload` would upload, in upload order: the record of every
   * loaded id once, with its file's text, and no policy before a loaded base
   * it names.
   */
  ghost predicate UploadPlan(queue: seq<UploadPolicy>, sources: seq<Option<(string, PolicyDocument)>>) {
    var index := LoadIndex(sources);
    && |queue| == |index.keys|
    && (forall i, j :: 0 <= i < j < |queue| ==> queue[i].policyInfo.policyId != queue[j].policyInfo.policyId)
    && (forall k :: k in index.entries <==> exists i :: 0 <= i < |queue| && queue[i].policyInfo.policyId == k)
    && (forall i :: 0 <= i < |queue| ==>
          var k := queue[i].policyInfo.policyId;
          k in index.entries && HoldsAt(queue[i], sources, index.entries[k]))
    && (forall i :: 0 <= i < |queue| ==>
          var b := queue[i].policyInfo.basePolicyId;
          b != "" && b in index.entries ==> exists j :: 0 <= j < i && queue[j].policyInfo.policyId == b)
  }

  /** The loaded map is keyed by id, and acyclic when the records are. */
  lemma LoadedKeyed(policies: OrderedMap<UploadPolicy>, sources: seq<Option<(string, PolicyDocument)>>, rank: map<string, nat>)
    requires LoadedFrom(policies, sources, LoadIndex(sources)) && AcyclicSources(sources, rank)
    ensures Keyed(policies) && Acyclic(policies, rank)
  {
    var index := LoadIndex(sources);
    forall k | k in policies.entries
      ensures policies.entries[k].policyInfo.policyId == k
    {
      IndexOfLast(SourceIds(sources), k);
    }
  }

  /** A sound upload queue over the loaded map is an upload plan for the records. */
  lemma PlanFromQueue(policies: OrderedMap<UploadPolicy>, sources: seq<Option<(string, PolicyDocument)>>,
                      queue: seq<UploadPolicy>)
    requires LoadedFrom(policies, sources, LoadIndex(sources)) && Keyed(policies)
    requires forall i, j :: 0 <= i < j < |queue| ==> queue[i] != queue[j]
    requires forall p :: p in queue <==> p in policies.entries.Values
    requires BaseFirst(queue, policies)
    ensures UploadPlan(queue, sources)
  {
    var index := LoadIndex(sources);
    forall i | 0 <= i < |queue|
      ensures queue[i].policyInfo.policyId in policies.entries
      ensures policies.entries[queue[i].policyInfo.policyId] == queue[i]
    {
      assert queue[i] in policies.entries.Values;
    }
    forall i, j | 0 <= i < j < |queue|
      ensures queue[i].policyInfo.policyId != queue[j].policyInfo.policyId
    {
    }
    forall k | k in index.entries
      ensures exists i :: 0 <= i < |queue| && queue[i].policyInfo.policyId == k
    {
      var p := policies.entries[k];
      assert p in queue;
      var i :| 0 <= i < |queue| && queue[i] == p;
    }
    forall i | 0 <= i < |queue| && queue[i].policyInfo.basePolicyId != "" && queue[i].policyInfo.basePolicyId in index.entries
      ensures exists j :: 0 <= j < i && queue[j].policyInfo.policyId == queue[i].policyInfo.basePolicyId
    {
      var b := Base(queue[i], policies);
      assert b in queue[..i];
      var j :| 0 <= j < i && queue[..i][j] == b;
      assert queue[j] == b;
    }
    DistinctLength(queue, policies);
  }

  /** A queue listing each entry of a keyed map once is as long as the map. */
  lemma DistinctLength(queue: seq<UploadPolicy>, policies: OrderedMap<UploadPolicy>)
    requires policies.Valid() && Keyed(policies)
    requires forall i, j :: 0 <= i < j < |queue| ==> queue[i] != queue[j]
    requires forall p :: p in queue <==> p in policies.entries.Values
    ensures |queue| == |policies.keys|
  {
    var values := policies.Values();
    policies.ValuesCover();
    forall i, j | 0 <= i < j < |values|
      ensures values[i] != values[j]
    {
      assert policies.keys[i] != policies.keys[j];
    }
    assert (set x | x in queue) == (set x | x in values);
    DistinctCard(queue);
    DistinctCard(values);
  }

  /** A sequence without repeats has as many elements as it has positions. */
  lemma {:induction false} DistinctCard<T>(s: seq<T>)
    requires forall i, j :: 0 <= i < j < |s| ==> s[i] != s[j]
    ensures |(set x | x in s)| == |s|
    decreases |s|
  {
    if s != [] {
      var n := |s| - 1;
      DistinctCard(s[..n]);
      assert (set x | x in s) == (set x | x in s[..n]) + {s[n]};
      assert s[n] !in (set x | x in s[..n]);
    }
  }

  /**
   * `PolicyUpload` up to the upload loop: load the files; fail when a file
   * cannot be loaded; stop before queueing anything when no policy was found;
   * otherwise queue every loaded policy for upload.
   */
  method PolicyUpload(files: seq<string>, read: string -> Option<string>, parse: string -> Option<PolicyDocument>,
                      ghost rank: map<string, nat>)
      returns (r: Result<seq<UploadPolicy>, UploadError>)
    requires AcyclicSources(Sources(files, read, parse), rank)
    ensures r == Failure(LoadFailed) <==> exists i :: 0 <= i < |files| && ReadSource(files[i], read, parse).None?
    ensures r == Failure(NoPoliciesFound) <==>
      (forall i :: 0 <= i < |files| ==> ReadSource(files[i], read, parse).Some?) && LoadIndex(Sources(files, read, parse)).keys == []
    ensures r.Success? ==> UploadPlan(r.value, Sources(files, read, parse))
  {
    var loaded := LoadPolicies(files, read, parse);
    if loaded.Failure? {
      return Failure(loaded.error);
    }
    var policies := loaded.value;
    if |policies.keys| == 0 {
      return Failure(NoPoliciesFound);
    }
    ghost var sources := Sources(files, read, parse);
    LoadedKeyed(policies, sources, rank);
    var queue := QueueAll(policies, rank);
    UploadQueueSound(policies, rank);
    PlanFromQueue(policies, sources, queue);
    return Success(queue);
  }
}
