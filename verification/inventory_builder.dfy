/** Extraction of Autonomous Database records from Terraform state and the dynamic
    inventory built from them (`ansible_generate_inventory.py`). */
module InventoryBuilder {
  import opened Wrappers
  import opened Documents
  import LastWins
  import Sequences

  const AdbResourceType := "oci_database_autonomous_database"
  const AdbGroup := "adb_instances"
  const DefaultWaitForState := true
  const DefaultTimeoutMinutes := 30

  /** What the extraction keeps of one ADB instance. */
  datatype AdbInfo = AdbInfo(
    ocid: Option<string>,
    dbName: Option<string>,
    state: Option<string>,
    freeformTags: Option<map<string, string>>)

  /** The build aborts at a declared name that the extraction does not know;
      `available` is the set of names it does know, which the script lists. */
  datatype BuildError = TargetNotFound(name: Key, available: set<Key>)

  predicate IsAdb(r: TfResource) {
    r.resourceType == Some(AdbResourceType)
  }

  /** The identity of an instance: `attributes.display_name`, or the resource's `name`
      when the attribute is absent (an explicit null stays None). */
  function KeyOf(resourceName: Option<string>, attrs: Attributes): Key {
    attrs.displayName.GetOr(resourceName)
  }

  function InfoOf(attrs: Attributes): AdbInfo {
    AdbInfo(attrs.id, attrs.dbName, attrs.lifecycleState, attrs.freeformTags.GetOr(Some(map[])))
  }

  function EntryOf(resourceName: Option<string>, inst: TfInstance): (Key, AdbInfo) {
    (KeyOf(resourceName, AttributesOf(inst)), InfoOf(AttributesOf(inst)))
  }

  // ----- Reference: the ADB instances of a document, flattened in document order -----

  function InstanceEntries(resourceName: Option<string>, insts: seq<TfInstance>): seq<(Key, AdbInfo)> {
    seq(|insts|, i requires 0 <= i < |insts| => EntryOf(resourceName, insts[i]))
  }

  function ResourceEntries(r: TfResource): seq<(Key, AdbInfo)> {
    if IsAdb(r) then InstanceEntries(r.name, InstancesOf(r)) else []
  }

  function AdbEntries(rs: seq<TfResource>): seq<(Key, AdbInfo)>
    decreases |rs|
  {
    if |rs| == 0 then [] else AdbEntries(rs[..|rs| - 1]) + ResourceEntries(rs[|rs| - 1])
  }

  // ----- parse_adb_resources: the nested loops of the script -----

  function AddInstances(m: map<Key, AdbInfo>, resourceName: Option<string>, insts: seq<TfInstance>): map<Key, AdbInfo>
    decreases |insts|
  {
    if |insts| == 0 then m
    else
      var e := EntryOf(resourceName, insts[|insts| - 1]);
      AddInstances(m, resourceName, insts[..|insts| - 1])[e.0 := e.1]
  }

  function AddResources(m: map<Key, AdbInfo>, rs: seq<TfResource>): map<Key, AdbInfo>
    decreases |rs|
  {
    if |rs| == 0 then m
    else
      var prev := AddResources(m, rs[..|rs| - 1]);
      var r := rs[|rs| - 1];
      if IsAdb(r) then AddInstances(prev, r.name, InstancesOf(r)) else prev
  }

  /** `parse_adb_resources`: every ADB instance of the document contributes its key, and
      when two instances share a key the later one in document order is kept. A missing or
      empty document gives the empty map. */
  function ParseAdbResources(state: Option<TfState>): (m: map<Key, AdbInfo>)
    ensures state.None? ==> m == map[]
    ensures m.Keys == LastWins.Keys(AdbEntries(ResourcesOf(state)))
    ensures forall i :: 0 <= i < |AdbEntries(ResourcesOf(state))| && LastWins.IsLast(AdbEntries(ResourcesOf(state)), i) ==>
              m[AdbEntries(ResourcesOf(state))[i].0] == AdbEntries(ResourcesOf(state))[i].1
  {
    var rs := ResourcesOf(state);
    AddResourcesIsAssign(map[], rs);
    LastWins.AssignSpec(map[], AdbEntries(rs));
    AddResources(map[], rs)
  }

  lemma {:induction false} AddInstancesIsAssign(m: map<Key, AdbInfo>, name: Option<string>, insts: seq<TfInstance>)
    decreases |insts|
    ensures AddInstances(m, name, insts) == LastWins.Assign(m, InstanceEntries(name, insts))
  {
    var es := InstanceEntries(name, insts);
    if |insts| > 0 {
      var n := |insts| - 1;
      var init := insts[..n];
      AddInstancesIsAssign(m, name, init);
      assert es[..n] == InstanceEntries(name, init);
      assert es[n] == EntryOf(name, insts[n]);
    }
  }

  /** The script's nested loops perform exactly the assignments of the flattened entries. */
  lemma {:induction false} AddResourcesIsAssign(m: map<Key, AdbInfo>, rs: seq<TfResource>)
    decreases |rs|
    ensures AddResources(m, rs) == LastWins.Assign(m, AdbEntries(rs))
  {
    if |rs| > 0 {
      var init := rs[..|rs| - 1];
      var r := rs[|rs| - 1];
      var prev := AddResources(m, init);
      assert AdbEntries(rs) == AdbEntries(init) + ResourceEntries(r);
      AddResourcesIsAssign(m, init);
      LastWins.AssignAppend(m, AdbEntries(init), ResourceEntries(r));
      if IsAdb(r) {
        assert AddResources(m, rs) == AddInstances(prev, r.name, InstancesOf(r));
        AddInstancesIsAssign(prev, r.name, InstancesOf(r));
      } else {
        assert AddResources(m, rs) == prev;
        assert AdbEntries(init) + ResourceEntries(r) == AdbEntries(init);
      }
    }
  }

  lemma {:induction false} AdbEntriesAppend(a: seq<TfResource>, b: seq<TfResource>)
    decreases |b|
    ensures AdbEntries(a + b) == AdbEntries(a) + AdbEntries(b)
  {
    if |b| == 0 {
      assert a + b == a;
    } else {
      var init := b[..|b| - 1];
      Sequences.DropLastAppend(a, b);
      AdbEntriesAppend(a, init);
      Sequences.Regroup(AdbEntries(a), AdbEntries(init), ResourceEntries(b[|b| - 1]));
    }
  }

  /** A resource of any other type, wherever it sits in the document, contributes nothing. */
  lemma NonAdbResourceIgnored(before: seq<TfResource>, r: TfResource, after: seq<TfResource>)
    requires !IsAdb(r)
    ensures ParseAdbResources(Some(TfState(Some(before + [r] + after)))) ==
            ParseAdbResources(Some(TfState(Some(before + after))))
  {
    var withR, withoutR := before + [r] + after, before + after;
    assert AdbEntries([r]) == [] by { assert [r][..0] == []; }
    AdbEntriesAppend(before, [r]);
    assert AdbEntries(before + [r]) == AdbEntries(before);
    AdbEntriesAppend(before + [r], after);
    AdbEntriesAppend(before, after);
    ParseIsAssign(withR);
    ParseIsAssign(withoutR);
  }

  /** Parsing a document performs the assignments of its flattened entries. */
  lemma ParseIsAssign(rs: seq<TfResource>)
    ensures ParseAdbResources(Some(TfState(Some(rs)))) == LastWins.Assign(map[], AdbEntries(rs))
  {
    assert ResourcesOf(Some(TfState(Some(rs)))) == rs;
    AddResourcesIsAssign(map[], rs);
  }

  /** An ADB resource's instance is keyed by its `display_name` when that attribute is
      present, and by the resource name when it is absent. */
  lemma SingleInstanceKey(r: TfResource, attrs: Attributes)
    requires IsAdb(r) && r.instances == Some([TfInstance(Some(attrs))])
    ensures attrs.displayName.Present? ==>
              ParseAdbResources(Some(TfState(Some([r])))) == map[Some(attrs.displayName.value) := InfoOf(attrs)]
    ensures attrs.displayName.Absent? ==>
              ParseAdbResources(Some(TfState(Some([r])))) == map[r.name := InfoOf(attrs)]
    ensures attrs.displayName.Null? ==>
              ParseAdbResources(Some(TfState(Some([r])))) == map[None := InfoOf(attrs)]
  {
    ParseSingle(r, TfInstance(Some(attrs)));
  }

  /** A document holding one ADB resource with one instance parses to that instance's
      entry alone. */
  lemma ParseSingle(r: TfResource, inst: TfInstance)
    requires IsAdb(r) && InstancesOf(r) == [inst]
    ensures ParseAdbResources(Some(TfState(Some([r])))) == map[EntryOf(r.name, inst).0 := EntryOf(r.name, inst).1]
  {
    var e := EntryOf(r.name, inst);
    SingleEntries(r, inst);
    ParseIsAssign([r]);
    LastWins.AssignOne(map[], e.0, e.1);
  }

  lemma SingleEntries(r: TfResource, inst: TfInstance)
    requires IsAdb(r) && InstancesOf(r) == [inst]
    ensures AdbEntries([r]) == [EntryOf(r.name, inst)]
  {
    assert [r][..0] == [];
    assert InstanceEntries(r.name, [inst]) == [EntryOf(r.name, inst)];
  }

  // ----- build_ansible_inventory -----

  /** The host variables of one target: identity and state from Terraform, the action
      from the manifest, with `wait_for_state` defaulting to true and `timeout_minutes`
      to 30, and a local connection. */
  function HostVarsOf(info: AdbInfo, t: AdbTarget): HostVars {
    HostVars(
      "local",
      info.ocid,
      info.state,
      info.dbName,
      t.action,
      t.waitForState.GetOr(Some(DefaultWaitForState)),
      t.timeoutMinutes.GetOr(Some(DefaultTimeoutMinutes)),
      info.freeformTags)
  }

  const EmptyInventory := Inventory(map[], [AdbGroup], [])

  /** The loop over the declared targets, in manifest order: each known name is appended
      to the hosts and (re)assigns its host variables; the first unknown name aborts. */
  function BuildFrom(ts: seq<AdbTarget>, adbMap: map<Key, AdbInfo>): Result<Inventory, BuildError>
    decreases |ts|
  {
    if |ts| == 0 then Success(EmptyInventory)
    else
      var t := ts[|ts| - 1];
      match BuildFrom(ts[..|ts| - 1], adbMap)
      case Failure(e) => Failure(e)
      case Success(inv) =>
        if t.displayName in adbMap then
          Success(inv.(hosts := inv.hosts + [t.displayName],
                       hostvars := inv.hostvars[t.displayName := HostVarsOf(adbMap[t.displayName], t)]))
        else
          Failure(TargetNotFound(t.displayName, adbMap.Keys))
  }

  /** The declared names of `ts`. */
  function NameSet(ts: seq<AdbTarget>): set<Key> {
    set i | 0 <= i < |ts| :: ts[i].displayName
  }

  /** The loop succeeds exactly when every declared name is known, and then lists the
      names as hosts in manifest order and keys the host variables by exactly those names. */
  lemma {:induction false} BuildFromSuccess(ts: seq<AdbTarget>, adbMap: map<Key, AdbInfo>)
    decreases |ts|
    ensures BuildFrom(ts, adbMap).Success? <==> forall i :: 0 <= i < |ts| ==> ts[i].displayName in adbMap
    ensures BuildFrom(ts, adbMap).Success? ==>
              && BuildFrom(ts, adbMap).value.children == [AdbGroup]
              && BuildFrom(ts, adbMap).value.hosts == AdbNames(ts)
              && BuildFrom(ts, adbMap).value.hostvars.Keys == NameSet(ts)
  {
    if |ts| > 0 {
      var n := |ts| - 1;
      var init, t := ts[..n], ts[n];
      assert forall i :: 0 <= i < n ==> init[i] == ts[i];
      BuildFromSuccess(init, adbMap);
      var prev := BuildFrom(init, adbMap);
      if prev.Success? && t.displayName in adbMap {
        assert AdbNames(ts) == AdbNames(init) + [t.displayName];
        assert NameSet(ts) == NameSet(init) + {t.displayName};
      }
    }
  }

  /** On success each declared name holds the host variables built from its last declaration. */
  lemma {:induction false} BuildFromLastWins(ts: seq<AdbTarget>, adbMap: map<Key, AdbInfo>, i: nat)
    decreases |ts|
    requires BuildFrom(ts, adbMap).Success?
    requires i < |ts| && LastWins.IsLastKey(AdbNames(ts), i)
    ensures ts[i].displayName in adbMap
    ensures ts[i].displayName in BuildFrom(ts, adbMap).value.hostvars
    ensures BuildFrom(ts, adbMap).value.hostvars[ts[i].displayName] == HostVarsOf(adbMap[ts[i].displayName], ts[i])
  {
    var n := |ts| - 1;
    var init, t := ts[..n], ts[n];
    var prev := BuildFrom(init, adbMap);
    assert prev.Success? && t.displayName in adbMap;
    if i < n {
      assert init[i] == ts[i];
      assert LastWins.IsLastKey(AdbNames(init), i);
      BuildFromLastWins(init, adbMap, i);
    }
  }

  /** On failure the error names the first declared name that is not known. */
  lemma {:induction false} BuildFromFailure(ts: seq<AdbTarget>, adbMap: map<Key, AdbInfo>)
    decreases |ts|
    requires BuildFrom(ts, adbMap).Failure?
    ensures exists i :: && 0 <= i < |ts| && ts[i].displayName !in adbMap
                        && (forall j :: 0 <= j < i ==> ts[j].displayName in adbMap)
                        && BuildFrom(ts, adbMap).error == TargetNotFound(ts[i].displayName, adbMap.Keys)
  {
    var n := |ts| - 1;
    var init, t := ts[..n], ts[n];
    assert forall i :: 0 <= i < n ==> init[i] == ts[i];
    var prev := BuildFrom(init, adbMap);
    if prev.Failure? {
      BuildFromFailure(init, adbMap);
      var i :| && 0 <= i < n && init[i].displayName !in adbMap
               && (forall j :: 0 <= j < i ==> init[j].displayName in adbMap)
               && prev.error == TargetNotFound(init[i].displayName, adbMap.Keys);
      assert ts[i].displayName !in adbMap;
    } else {
      BuildFromSuccess(init, adbMap);
      assert forall j :: 0 <= j < n ==> ts[j].displayName in adbMap;
      assert BuildFrom(ts, adbMap).error == TargetNotFound(ts[n].displayName, adbMap.Keys);
    }
  }

  /** `build_ansible_inventory`: when every declared name is known the inventory lists the
      declared names as hosts in manifest order (duplicates included) and has exactly those
      names as hostvars keys; otherwise the build fails at the first unknown name and yields
      no inventory. The group list is always `['adb_instances']`. */
  function BuildAnsibleInventory(manifest: Manifest, adbMap: map<Key, AdbInfo>): (r: Result<Inventory, BuildError>)
    ensures r.Success? <==> forall i :: 0 <= i < |AdbTargets(manifest)| ==> AdbTargets(manifest)[i].displayName in adbMap
    ensures r.Success? ==> r.value.children == [AdbGroup]
    ensures r.Success? ==> r.value.hosts == AdbNames(AdbTargets(manifest))
    ensures r.Success? ==> r.value.hostvars.Keys == NameSet(AdbTargets(manifest))
    ensures r.Failure? ==>
              exists i :: && 0 <= i < |AdbTargets(manifest)|
                          && AdbTargets(manifest)[i].displayName !in adbMap
                          && (forall j :: 0 <= j < i ==> AdbTargets(manifest)[j].displayName in adbMap)
                          && r.error == TargetNotFound(AdbTargets(manifest)[i].displayName, adbMap.Keys)
  {
    var ts := AdbTargets(manifest);
    BuildFromSuccess(ts, adbMap);
    if BuildFrom(ts, adbMap).Failure? then
      BuildFromFailure(ts, adbMap);
      BuildFrom(ts, adbMap)
    else
      BuildFrom(ts, adbMap)
  }

  /** Each host's variables copy the Terraform fields of its record and the manifest fields
      of the last target declaring it; the defaults apply only to an absent field, and an
      explicit null stays null. */
  lemma HostVarsContents(manifest: Manifest, adbMap: map<Key, AdbInfo>, i: nat)
    requires BuildAnsibleInventory(manifest, adbMap).Success?
    requires i < |AdbTargets(manifest)| && LastWins.IsLastKey(AdbNames(AdbTargets(manifest)), i)
    ensures var t := AdbTargets(manifest)[i];
            var hv := BuildAnsibleInventory(manifest, adbMap).value.hostvars[t.displayName];
            && hv.ansibleConnection == "local"
            && hv.ociOcid == adbMap[t.displayName].ocid
            && hv.ociState == adbMap[t.displayName].state
            && hv.dbName == adbMap[t.displayName].dbName
            && hv.resourceTags == adbMap[t.displayName].freeformTags
            && hv.action == t.action
            && (t.waitForState.Absent? ==> hv.waitForState == Some(true))
            && (t.timeoutMinutes.Absent? ==> hv.timeoutMinutes == Some(30))
            && (t.waitForState.Present? ==> hv.waitForState == Some(t.waitForState.value))
            && (t.timeoutMinutes.Present? ==> hv.timeoutMinutes == Some(t.timeoutMinutes.value))
            && (t.waitForState.Null? ==> hv.waitForState == None)
            && (t.timeoutMinutes.Null? ==> hv.timeoutMinutes == None)
  {
    BuildFromLastWins(AdbTargets(manifest), adbMap, i);
  }

  /** With no declared ADB targets the inventory is empty apart from its group list. */
  lemma NoTargetsEmptyInventory(manifest: Manifest, adbMap: map<Key, AdbInfo>)
    requires AdbTargets(manifest) == []
    ensures BuildAnsibleInventory(manifest, adbMap) == Success(Inventory(map[], ["adb_instances"], []))
  {
  }
}
