/** The operation-history state document: loading it, and merging one manifest's outcome
    into it (`state_functions.py`). The clock is the parameter `now`, the already formatted
    UTC timestamp. */
module StateReconciler {
  import opened Wrappers
  import opened Documents
  import LastWins
  import Sequences

  const SchemaVersion := "1.0.0"
  const DefaultOperationVersion := "1.0.0"
  const SuccessStatus := "success"

  /** The document used when there is no prior state. */
  const EmptyState := OperationState(Some(SchemaVersion), None, map[])

  /** `load_state_from_bucket`, given the outcome of the download: clouds other than `oci`
      and a missing or empty object start from the empty state, a parsed object is used as
      is, and malformed JSON is an error (the script re-raises it). */
  function LoadStateFromBucket(cloud: string, download: Download<OperationState>): (r: Result<OperationState, string>)
    ensures r.Failure? <==> cloud == "oci" && download.Malformed?
    ensures r.Failure? ==> r.error == download.detail
    ensures cloud != "oci" || download.NoContent? ==> r == Success(EmptyState)
    ensures cloud == "oci" && download.Parsed? ==> r == Success(download.doc)
  {
    if cloud != "oci" then Success(EmptyState)
    else
      match download
      case Parsed(doc) => Success(doc)
      case Malformed(detail) => Failure(detail)
      case NoContent => Success(EmptyState)
  }

  // ----- What a read of the bucket can meet, and how the scripts classify it -----

  /** A `get` of the history object: the object is not there, the call failed for another
      reason (a network error or timeout, a wrong namespace; `output` is the CLI's message), or the
      object was read and its text classified. */
  datatype BucketRead<T> = ObjectMissing | ReadFailed(output: string) | ObjectRead(content: Download<T>)

  /** `download_from_bucket` followed by `if content:`, as written: every failed call,
      whatever its cause, yields no text. */
  function ScriptDownload<T>(r: BucketRead<T>): Download<T> {
    match r
    case ObjectMissing => NoContent
    case ReadFailed(_) => NoContent
    case ObjectRead(d) => d
  }

  /** Loading the history as the scripts do it. */
  function LoadStateAsWritten(cloud: string, r: BucketRead<OperationState>): Result<OperationState, string> {
    LoadStateFromBucket(cloud, ScriptDownload(r))
  }

  /** A read that fails while the bucket holds the history `stored` is taken for "no
      history": a successful read of `stored` would keep the resource `k` through the
      update, but after the failed read the load gives the empty state, and the state the
      update then uploads has lost `k`. */
  lemma FailedReadErasesHistory(stored: OperationState, output: string, manifest: Manifest, now: string, k: Key)
    requires k in stored.resources && k !in TargetKeys(manifest)
    ensures LoadStateAsWritten("oci", ObjectRead(Parsed(stored))) == Success(stored)
    ensures k in UpdateStateWithManifest(stored, manifest, now).resources
    ensures LoadStateAsWritten("oci", ReadFailed(output)) == Success(EmptyState)
    ensures k !in UpdateStateWithManifest(LoadStateAsWritten("oci", ReadFailed(output)).value, manifest, now).resources
  {
  }

  /** Loading the history with a failed read reported: on `oci` a read that failed for a
      reason other than a missing object is an error carrying the CLI's message, like
      malformed JSON; only a missing or empty object starts a fresh history. */
  function LoadState(cloud: string, r: BucketRead<OperationState>): (res: Result<OperationState, string>)
    ensures res.Failure? <==> cloud == "oci" && (r.ReadFailed? || (r.ObjectRead? && r.content.Malformed?))
    ensures res.Failure? && r.ReadFailed? ==> res.error == r.output
    ensures cloud != "oci" || r.ObjectMissing? || r == ObjectRead(NoContent) ==> res == Success(EmptyState)
    ensures cloud == "oci" && r.ObjectRead? && r.content.Parsed? ==> res == Success(r.content.doc)
  {
    if cloud == "oci" && r.ReadFailed? then Failure(r.output)
    else LoadStateFromBucket(cloud, ScriptDownload(r))
  }

  /** The corrected load differs from the scripts' only on failed reads. */
  lemma LoadStateAgrees(cloud: string, r: BucketRead<OperationState>)
    requires cloud != "oci" || !r.ReadFailed?
    ensures LoadState(cloud, r) == LoadStateAsWritten(cloud, r)
  {
  }

  /** With the corrected load, a history that loads is either the stored one or, when
      nothing is stored, the empty one: an update never silently drops stored resources. */
  lemma LoadedHistoryKept(r: BucketRead<OperationState>, manifest: Manifest, now: string)
    requires LoadState("oci", r).Success?
    ensures r.ObjectRead? && r.content.Parsed? ==>
              forall k :: k in r.content.doc.resources ==> k in UpdateStateWithManifest(LoadState("oci", r).value, manifest, now).resources
    ensures !(r.ObjectRead? && r.content.Parsed?) ==> r.ObjectMissing? || r == ObjectRead(NoContent)
  {
  }

  // ----- Outcomes built from a manifest -----

  function AgentPairs(agents: seq<Agent>, now: string): seq<(Key, AgentRecord)> {
    seq(|agents|, i requires 0 <= i < |agents| => (agents[i].agentType, AgentRecord(agents[i].version, now)))
  }

  /** The agent types, in order. */
  function AgentTypes(agents: seq<Agent>): (types: seq<Key>)
    ensures |types| == |agents|
    ensures forall i :: 0 <= i < |agents| ==> types[i] == agents[i].agentType
  {
    seq(|agents|, i requires 0 <= i < |agents| => agents[i].agentType)
  }

  /** The `agents` map of a VM outcome: one entry per distinct agent type, holding the
      version of the last agent of that type and the reconciliation time. */
  function AgentsInfo(agents: seq<Agent>, now: string): (r: map<Key, AgentRecord>)
    ensures r.Keys == set i | 0 <= i < |agents| :: agents[i].agentType
    ensures forall k :: k in r ==> r[k].installedAt == now
    ensures forall i :: 0 <= i < |agents| && LastWins.IsLastKey(AgentTypes(agents), i) ==>
              r[agents[i].agentType].version == agents[i].version
  {
    var ps := AgentPairs(agents, now);
    LastWins.AssignSpec(map[], ps);
    assert LastWins.Keys(ps) == set i | 0 <= i < |agents| :: agents[i].agentType by {
      assert forall i :: 0 <= i < |agents| ==> ps[i].0 == agents[i].agentType;
    }
    assert LastWins.KeySeq(ps) == AgentTypes(agents);
    forall k | k in LastWins.Assign(map[], ps)
      ensures LastWins.Assign(map[], ps)[k].installedAt == now
    {
      var i := LastWins.LastExists(ps, k);
    }
    LastWins.Assign(map[], ps)
  }

  function OperationVersion(m: Manifest): Option<string> {
    m.operationVersion.GetOr(Some(DefaultOperationVersion))
  }

  function VmOutcomeOf(t: VmTarget, version: Option<string>, now: string): Outcome {
    VmOutcome(now, SuccessStatus, version, AgentsInfo(AgentsOf(t), now))
  }

  function AdbOutcomeOf(t: AdbTarget, version: Option<string>, now: string): Outcome {
    AdbOutcome(now, SuccessStatus, t.action, version)
  }

  /** The (resource key, outcome) writes of the VM loop, in manifest order. */
  function VmWrites(ts: seq<VmTarget>, version: Option<string>, now: string): seq<(Key, Outcome)> {
    seq(|ts|, i requires 0 <= i < |ts| => (ts[i].logicalKey, VmOutcomeOf(ts[i], version, now)))
  }

  /** The (resource key, outcome) writes of the ADB loop, in manifest order. */
  function AdbWrites(ts: seq<AdbTarget>, version: Option<string>, now: string): seq<(Key, Outcome)> {
    seq(|ts|, i requires 0 <= i < |ts| => (ts[i].displayName, AdbOutcomeOf(ts[i], version, now)))
  }

  // ----- The read-modify-write of `resources[key]['operations'][operation_type]` -----

  /** `resources[key]`, created as `{'operations': {}}` when missing. */
  function EntryOrEmpty(resources: map<Key, ResourceHistory>, k: Key): ResourceHistory {
    if k in resources then resources[k] else ResourceHistory(map[])
  }

  function SetOperation(h: ResourceHistory, op: Key, o: Outcome): ResourceHistory {
    h.(operations := h.operations[op := o])
  }

  /** The loop body `resources[key].operations[op] = outcome`, applied to each write in order. */
  function Record(resources: map<Key, ResourceHistory>, op: Key, ws: seq<(Key, Outcome)>): map<Key, ResourceHistory>
    decreases |ws|
  {
    if |ws| == 0 then resources
    else
      var prev := Record(resources, op, ws[..|ws| - 1]);
      var w := ws[|ws| - 1];
      prev[w.0 := SetOperation(EntryOrEmpty(prev, w.0), op, w.1)]
  }

  /** Recording adds exactly the written keys and leaves every unwritten entry unchanged. */
  lemma {:induction false} RecordFrame(resources: map<Key, ResourceHistory>, op: Key, ws: seq<(Key, Outcome)>)
    decreases |ws|
    ensures Record(resources, op, ws).Keys == resources.Keys + LastWins.Keys(ws)
    ensures forall k :: k in resources && k !in LastWins.Keys(ws) ==> Record(resources, op, ws)[k] == resources[k]
  {
    if |ws| > 0 {
      var n := |ws| - 1;
      var init, w := ws[..n], ws[n];
      var prev := Record(resources, op, init);
      assert Record(resources, op, ws) == prev[w.0 := SetOperation(EntryOrEmpty(prev, w.0), op, w.1)];
      RecordFrame(resources, op, init);
      assert LastWins.Keys(ws) == LastWins.Keys(init) + {w.0} by {
        assert forall i :: 0 <= i < n ==> init[i] == ws[i];
      }
    }
  }

  /** A written entry keeps its other operation types and holds, for `op`, the last outcome
      written to it. */
  lemma {:induction false} RecordLastWins(resources: map<Key, ResourceHistory>, op: Key, ws: seq<(Key, Outcome)>, i: nat)
    decreases |ws|
    requires i < |ws| && LastWins.IsLast(ws, i)
    ensures ws[i].0 in Record(resources, op, ws)
    ensures Record(resources, op, ws)[ws[i].0] == SetOperation(EntryOrEmpty(resources, ws[i].0), op, ws[i].1)
  {
    var n := |ws| - 1;
    var init, w := ws[..n], ws[n];
    var prev := Record(resources, op, init);
    assert Record(resources, op, ws) == prev[w.0 := SetOperation(EntryOrEmpty(prev, w.0), op, w.1)];
    if i < n {
      assert init[i] == ws[i];
      assert LastWins.IsLast(init, i);
      RecordLastWins(resources, op, init, i);
    } else if w.0 in LastWins.Keys(init) {
      var j := LastWins.LastExists(init, w.0);
      RecordLastWins(resources, op, init, j);
      assert EntryOrEmpty(prev, w.0) == SetOperation(EntryOrEmpty(resources, w.0), op, init[j].1);
    } else {
      RecordFrame(resources, op, init);
      assert EntryOrEmpty(prev, w.0) == EntryOrEmpty(resources, w.0);
    }
  }

  /** Recording `a` then `b` is recording `a + b`. */
  lemma {:induction false} RecordAppend(resources: map<Key, ResourceHistory>, op: Key, a: seq<(Key, Outcome)>, b: seq<(Key, Outcome)>)
    decreases |b|
    ensures Record(resources, op, a + b) == Record(Record(resources, op, a), op, b)
  {
    if |b| == 0 {
      assert a + b == a;
    } else {
      Sequences.DropLastAppend(a, b);
      RecordAppend(resources, op, a, b[..|b| - 1]);
    }
  }

  /** Recording the same writes twice is recording them once. */
  lemma RecordIdempotent(resources: map<Key, ResourceHistory>, op: Key, ws: seq<(Key, Outcome)>)
    ensures Record(Record(resources, op, ws), op, ws) == Record(resources, op, ws)
  {
    var once := Record(resources, op, ws);
    var twice := Record(once, op, ws);
    RecordFrame(resources, op, ws);
    RecordFrame(once, op, ws);
    forall k | k in twice
      ensures twice[k] == once[k]
    {
      if k in LastWins.Keys(ws) {
        var i := LastWins.LastExists(ws, k);
        RecordLastWins(resources, op, ws, i);
        RecordLastWins(once, op, ws, i);
        assert EntryOrEmpty(once, k) == once[k];
      }
    }
  }

  // ----- update_state_with_manifest -----

  /** The resource keys a manifest writes: VM `logical_key`s and ADB `display_name`s. */
  function TargetKeys(m: Manifest): set<Key> {
    (set i | 0 <= i < |VmTargets(m)| :: VmTargets(m)[i].logicalKey)
      + (set i | 0 <= i < |AdbTargets(m)| :: AdbTargets(m)[i].displayName)
  }

  /** Every write of the manifest: the VM loop's, then the ADB loop's. */
  function Writes(m: Manifest, now: string): seq<(Key, Outcome)> {
    VmWrites(VmTargets(m), OperationVersion(m), now) + AdbWrites(AdbTargets(m), OperationVersion(m), now)
  }

  /** `update_state_with_manifest`: stamps `last_updated` with `now`, records under each
      target's key the outcome for the manifest's operation type, and leaves every other
      resource and every other operation type as it was. */
  function UpdateStateWithManifest(state: OperationState, manifest: Manifest, now: string): (r: OperationState)
    ensures r.lastUpdated == Some(now)
    ensures r.version == state.version
    ensures r.resources.Keys == state.resources.Keys + TargetKeys(manifest)
    ensures forall k :: k in state.resources && k !in TargetKeys(manifest) ==> r.resources[k] == state.resources[k]
    ensures forall k :: k in TargetKeys(manifest) ==> manifest.operationType in r.resources[k].operations
    ensures forall k, o :: k in state.resources && o in state.resources[k].operations && o != manifest.operationType ==>
              o in r.resources[k].operations && r.resources[k].operations[o] == state.resources[k].operations[o]
  {
    var op := manifest.operationType;
    var version := OperationVersion(manifest);
    var vms := VmWrites(VmTargets(manifest), version, now);
    var adbs := AdbWrites(AdbTargets(manifest), version, now);
    var afterVm := Record(state.resources, op, vms);
    var afterAdb := Record(afterVm, op, adbs);
    RecordOperations(state.resources, op, vms + adbs);
    RecordFrame(state.resources, op, vms + adbs);
    RecordAppend(state.resources, op, vms, adbs);
    assert LastWins.Keys(vms + adbs) == TargetKeys(manifest) by {
      WritesKeys(manifest, now);
    }
    state.(lastUpdated := Some(now), resources := afterAdb)
  }

  /** The keys the manifest's writes touch are exactly its target keys. */
  lemma WritesKeys(m: Manifest, now: string)
    ensures LastWins.Keys(Writes(m, now)) == TargetKeys(m)
  {
    WrittenKeysAreTargets(m, now);
    TargetsAreWritten(m, now);
  }

  lemma {:induction false} WrittenKeysAreTargets(m: Manifest, now: string)
    ensures LastWins.Keys(Writes(m, now)) <= TargetKeys(m)
  {
    var vs, ds := VmTargets(m), AdbTargets(m);
    var version := OperationVersion(m);
    var vms, adbs := VmWrites(vs, version, now), AdbWrites(ds, version, now);
    var ws := vms + adbs;
    var vmKeys := set i | 0 <= i < |vs| :: vs[i].logicalKey;
    var adbKeys := set i | 0 <= i < |ds| :: ds[i].displayName;
    assert TargetKeys(m) == vmKeys + adbKeys;
    forall i | 0 <= i < |ws| ensures ws[i].0 in vmKeys + adbKeys {
      if i < |vms| {
        assert ws[i] == vms[i];
        assert vms[i].0 == vs[i].logicalKey;
      } else {
        var j := i - |vms|;
        assert ws[i] == adbs[j];
        assert adbs[j].0 == ds[j].displayName;
      }
    }
  }

  lemma TargetsAreWritten(m: Manifest, now: string)
    ensures TargetKeys(m) <= LastWins.Keys(Writes(m, now))
  {
    var vs, ds := VmTargets(m), AdbTargets(m);
    var vms := VmWrites(vs, OperationVersion(m), now);
    var ws := Writes(m, now);
    forall i | 0 <= i < |vs| ensures vs[i].logicalKey in LastWins.Keys(ws) {
      assert ws[i] == vms[i];
    }
    forall i | 0 <= i < |ds| ensures ds[i].displayName in LastWins.Keys(ws) {
      assert ws[|vms| + i].0 == ds[i].displayName;
    }
  }

  /** Per key and operation type: every written entry has an outcome for `op`, and every
      other operation type of an existing entry keeps its outcome. */
  lemma {:induction false} RecordOperations(resources: map<Key, ResourceHistory>, op: Key, ws: seq<(Key, Outcome)>)
    ensures forall k :: k in LastWins.Keys(ws) ==>
              k in Record(resources, op, ws) && op in Record(resources, op, ws)[k].operations
    ensures forall k, o :: k in resources && o in resources[k].operations && o != op ==>
              k in Record(resources, op, ws) &&
              o in Record(resources, op, ws)[k].operations &&
              Record(resources, op, ws)[k].operations[o] == resources[k].operations[o]
  {
    RecordFrame(resources, op, ws);
    forall k | k in LastWins.Keys(ws)
      ensures op in Record(resources, op, ws)[k].operations
    {
      var i := LastWins.LastExists(ws, k);
      RecordLastWins(resources, op, ws, i);
    }
    forall k, o | k in resources && o in resources[k].operations && o != op
      ensures o in Record(resources, op, ws)[k].operations
      ensures Record(resources, op, ws)[k].operations[o] == resources[k].operations[o]
    {
      if k in LastWins.Keys(ws) {
        var i := LastWins.LastExists(ws, k);
        RecordLastWins(resources, op, ws, i);
      }
    }
  }

  lemma UpdateRecordsWrites(state: OperationState, manifest: Manifest, now: string)
    ensures UpdateStateWithManifest(state, manifest, now).resources ==
            Record(state.resources, manifest.operationType, Writes(manifest, now))
  {
    var version := OperationVersion(manifest);
    RecordAppend(state.resources, manifest.operationType,
                 VmWrites(VmTargets(manifest), version, now), AdbWrites(AdbTargets(manifest), version, now));
  }

  /** Replaying a manifest with the same timestamp changes nothing: outcomes are set, not
      appended. */
  lemma UpdateIdempotent(state: OperationState, manifest: Manifest, now: string)
    ensures UpdateStateWithManifest(UpdateStateWithManifest(state, manifest, now), manifest, now) ==
            UpdateStateWithManifest(state, manifest, now)
  {
    var once := UpdateStateWithManifest(state, manifest, now);
    UpdateRecordsWrites(state, manifest, now);
    UpdateRecordsWrites(once, manifest, now);
    RecordIdempotent(state.resources, manifest.operationType, Writes(manifest, now));
  }

  /** A key declared by an ADB target ends up with the outcome of its last ADB declaration,
      even when a VM target declares the same key: the ADB loop runs second. */
  lemma AdbOutcomeWins(state: OperationState, manifest: Manifest, now: string, i: nat)
    requires i < |AdbTargets(manifest)| && LastWins.IsLastKey(AdbNames(AdbTargets(manifest)), i)
    ensures var k := AdbTargets(manifest)[i].displayName;
            var r := UpdateStateWithManifest(state, manifest, now);
            && k in r.resources && manifest.operationType in r.resources[k].operations
            && r.resources[k].operations[manifest.operationType] ==
               AdbOutcomeOf(AdbTargets(manifest)[i], OperationVersion(manifest), now)
  {
    var ts := AdbTargets(manifest);
    var vms := VmWrites(VmTargets(manifest), OperationVersion(manifest), now);
    var adbs := AdbWrites(ts, OperationVersion(manifest), now);
    var ws := Writes(manifest, now);
    var p := |vms| + i;
    assert ws[p] == adbs[i];
    forall j | p < j < |ws| ensures ws[j].0 != ws[p].0 {
      assert ws[j] == adbs[j - |vms|];
    }
    assert LastWins.IsLast(ws, p);
    UpdateRecordsWrites(state, manifest, now);
    RecordLastWins(state.resources, manifest.operationType, ws, p);
  }

  /** A key declared only by VM targets ends up with the outcome of its last VM declaration:
      the agents of that target, stamped with the reconciliation time. */
  lemma VmOutcomeRecorded(state: OperationState, manifest: Manifest, now: string, i: nat)
    requires i < |VmTargets(manifest)| && LastWins.IsLastKey(VmKeys(VmTargets(manifest)), i)
    requires forall j :: 0 <= j < |AdbTargets(manifest)| ==> AdbTargets(manifest)[j].displayName != VmTargets(manifest)[i].logicalKey
    ensures var k := VmTargets(manifest)[i].logicalKey;
            var r := UpdateStateWithManifest(state, manifest, now);
            && k in r.resources && manifest.operationType in r.resources[k].operations
            && r.resources[k].operations[manifest.operationType] ==
               VmOutcomeOf(VmTargets(manifest)[i], OperationVersion(manifest), now)
  {
    var vms := VmWrites(VmTargets(manifest), OperationVersion(manifest), now);
    var adbs := AdbWrites(AdbTargets(manifest), OperationVersion(manifest), now);
    var ws := Writes(manifest, now);
    assert ws[i] == vms[i];
    forall j | i < j < |ws| ensures ws[j].0 != ws[i].0 {
      if j >= |vms| { assert ws[j] == adbs[j - |vms|]; }
    }
    UpdateRecordsWrites(state, manifest, now);
    RecordLastWins(state.resources, manifest.operationType, ws, i);
  }

  /** Every outcome the update writes says `success`, carries the manifest's operation
      version (default `1.0.0`) and is stamped with the reconciliation time. */
  lemma RecordedOutcomeFields(state: OperationState, manifest: Manifest, now: string, k: Key)
    requires k in TargetKeys(manifest)
    ensures var r := UpdateStateWithManifest(state, manifest, now);
            && k in r.resources && manifest.operationType in r.resources[k].operations
            && r.resources[k].operations[manifest.operationType].status == "success"
            && r.resources[k].operations[manifest.operationType].version == OperationVersion(manifest)
            && r.resources[k].operations[manifest.operationType].completed == now
  {
    var ws := Writes(manifest, now);
    var vms := VmWrites(VmTargets(manifest), OperationVersion(manifest), now);
    var adbs := AdbWrites(AdbTargets(manifest), OperationVersion(manifest), now);
    WritesKeys(manifest, now);
    var i := LastWins.LastExists(ws, k);
    if i < |vms| { assert ws[i] == vms[i]; } else { assert ws[i] == adbs[i - |vms|]; }
    UpdateRecordsWrites(state, manifest, now);
    RecordLastWins(state.resources, manifest.operationType, ws, i);
  }

  /** Example: one VM target with one agent, reconciled into the empty
      state, gives one resource with one operation whose agents map has exactly one entry. */
  lemma FreshStateOneAgent(key: Key, op: Key, agent: Agent, now: string)
    ensures var m := Manifest(op, Absent, Some(Targets(Some([VmTarget(key, Some([agent]))]), None)));
            UpdateStateWithManifest(EmptyState, m, now).resources ==
              map[key := ResourceHistory(map[op := VmOutcome(now, "success", Some("1.0.0"),
                                                             map[agent.agentType := AgentRecord(agent.version, now)])])]
  {
    var m := Manifest(op, Absent, Some(Targets(Some([VmTarget(key, Some([agent]))]), None)));
    var agents := map[agent.agentType := AgentRecord(agent.version, now)];
    var ai := AgentsInfo([agent], now);
    assert ai == agents by {
      assert LastWins.IsLastKey(AgentTypes([agent]), 0);
      assert ai.Keys == {agent.agentType};
    }
    var o := VmOutcome(now, "success", Some("1.0.0"), agents);
    var ws := Writes(m, now);
    assert ws == [(key, o)];
    UpdateRecordsWrites(EmptyState, m, now);
    assert ws[..0] == [];
    assert Record(map[], op, ws) == map[][key := SetOperation(ResourceHistory(map[]), op, o)];
  }
}
