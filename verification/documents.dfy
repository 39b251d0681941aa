/** The JSON documents the scripts exchange, as typed records. Every member the scripts
    read with `.get(k)` is an `Option`; a member read with `.get(k, default)` for a scalar
    is a `Field`, so that an absent key and an explicit `null` stay distinguishable; a list
    or object read with `.get(k, [])` / `.get(k, {})` and then iterated is an `Option`
    whose None means the key is absent. `freeformTags` is the exception: it is read with
    `.get('freeform_tags', {})` and passed through unchanged, so it is a `Field` like a
    scalar. */
module Documents {
  import opened Wrappers

  /** A dictionary key as Python sees it: a name, or None when the name was missing. */
  type Key = Option<string>

  /** The outcome of downloading and parsing one object from the bucket, as the scripts see
      it. `NoContent` is every download that yields no text (the scripts test `if content:`):
      a missing object, an empty one, and also a download that failed for any other reason,
      since `download_from_bucket` returns None for every failed CLI call. */
  datatype Download<T> = NoContent | Malformed(detail: string) | Parsed(doc: T)

  // ----- Terraform state (`terraform.tfstate`) -----

  datatype Attributes = Attributes(
    displayName: Field<string>,
    id: Option<string>,
    dbName: Option<string>,
    lifecycleState: Option<string>,
    freeformTags: Field<map<string, string>>)

  /** The attributes of an instance that has no `attributes` member. */
  const NoAttributes := Attributes(Absent, None, None, None, Absent)

  datatype TfInstance = TfInstance(attributes: Option<Attributes>)

  datatype TfResource = TfResource(
    resourceType: Option<string>,
    name: Option<string>,
    instances: Option<seq<TfInstance>>)

  datatype TfState = TfState(resources: Option<seq<TfResource>>)

  function AttributesOf(inst: TfInstance): Attributes {
    inst.attributes.GetOr(NoAttributes)
  }

  function InstancesOf(r: TfResource): seq<TfInstance> {
    r.instances.GetOr([])
  }

  /** The resources of a state document; a missing or empty document has none. */
  function ResourcesOf(state: Option<TfState>): seq<TfResource> {
    match state
    case None => []
    case Some(s) => s.resources.GetOr([])
  }

  // ----- Operation manifest -----

  datatype Agent = Agent(agentType: Option<string>, version: Option<string>)

  datatype VmTarget = VmTarget(logicalKey: Option<string>, agents: Option<seq<Agent>>)

  datatype AdbTarget = AdbTarget(
    displayName: Option<string>,
    action: Option<string>,
    waitForState: Field<bool>,
    timeoutMinutes: Field<int>)

  datatype Targets = Targets(vmResources: Option<seq<VmTarget>>, adbResources: Option<seq<AdbTarget>>)

  datatype Manifest = Manifest(
    operationType: Option<string>,
    operationVersion: Field<string>,
    targets: Option<Targets>)

  function TargetsOf(m: Manifest): Targets {
    m.targets.GetOr(Targets(None, None))
  }

  function AdbTargets(m: Manifest): seq<AdbTarget> {
    TargetsOf(m).adbResources.GetOr([])
  }

  function VmTargets(m: Manifest): seq<VmTarget> {
    TargetsOf(m).vmResources.GetOr([])
  }

  function AgentsOf(t: VmTarget): seq<Agent> {
    t.agents.GetOr([])
  }

  /** The declared `display_name`s of the ADB targets, in manifest order. */
  function AdbNames(ts: seq<AdbTarget>): (names: seq<Key>)
    ensures |names| == |ts|
    ensures forall i :: 0 <= i < |ts| ==> names[i] == ts[i].displayName
  {
    seq(|ts|, i requires 0 <= i < |ts| => ts[i].displayName)
  }

  /** The declared `logical_key`s of the VM targets, in manifest order. */
  function VmKeys(ts: seq<VmTarget>): (keys: seq<Key>)
    ensures |keys| == |ts|
    ensures forall i :: 0 <= i < |ts| ==> keys[i] == ts[i].logicalKey
  {
    seq(|ts|, i requires 0 <= i < |ts| => ts[i].logicalKey)
  }

  // ----- Dynamic inventory (`inventory.json`) -----

  datatype HostVars = HostVars(
    ansibleConnection: string,
    ociOcid: Option<string>,
    ociState: Option<string>,
    dbName: Option<string>,
    action: Option<string>,
    waitForState: Option<bool>,
    timeoutMinutes: Option<int>,
    resourceTags: Option<map<string, string>>)

  /** The inventory as built: `_meta.hostvars`, `all.children` and `adb_instances.hosts`. */
  datatype Inventory = Inventory(hostvars: map<Key, HostVars>, children: seq<string>, hosts: seq<Key>)

  /** The inventory as read back from its file, where `_meta` and `hostvars` may be missing. */
  datatype InventoryMeta = InventoryMeta(hostvars: Option<map<Key, HostVars>>)
  datatype InventoryDoc = InventoryDoc(meta: Option<InventoryMeta>)

  /** The host variables as read back from the saved inventory. `json.dump` writes every
      key as a string and a None key as `"null"`, so the None key comes back as the name
      `"null"`. When both None and `"null"` are keys, which value is read back depends on
      insertion order; the model keeps the value of the `"null"` key. */
  function SavedHostvars(hv: map<Key, HostVars>): (saved: map<Key, HostVars>)
    ensures None !in saved
    ensures forall k :: k in saved <==> (k in hv && k.Some?) || (k == Some("null") && None in hv)
    ensures forall k :: k in hv && k.Some? ==> saved[k] == hv[k]
    ensures None in hv && Some("null") !in hv ==> saved[Some("null")] == hv[None]
  {
    var named := map k | k in hv && k.Some? :: hv[k];
    if None in hv && Some("null") !in hv then named[Some("null") := hv[None]] else named
  }

  /** The document a built inventory is saved as and read back from. */
  function ToDocument(inv: Inventory): InventoryDoc {
    InventoryDoc(Some(InventoryMeta(Some(SavedHostvars(inv.hostvars)))))
  }

  // ----- Operation-history state (`ansible-state-<operation>.json`) -----

  datatype AgentRecord = AgentRecord(version: Option<string>, installedAt: string)

  datatype Outcome =
    | VmOutcome(completed: string, status: string, version: Option<string>, agents: map<Key, AgentRecord>)
    | AdbOutcome(completed: string, status: string, action: Option<string>, version: Option<string>)

  /** `{'operations': {...}}`: the outcome last recorded for each operation type. */
  datatype ResourceHistory = ResourceHistory(operations: map<Key, Outcome>)

  datatype OperationState = OperationState(
    version: Option<string>,
    lastUpdated: Option<string>,
    resources: map<Key, ResourceHistory>)
}
