# platform-ci orchestration core, modelled in Dafny

This project models the pure logic of the `scripts_python` helpers of the platform-ci
pipeline. Those helpers join four JSON documents:

- the Terraform state of a configuration,
- an operation manifest that declares VM and Autonomous Database (ADB) targets,
- the dynamic Ansible inventory built from the two,
- the per-operation history document kept in the OCI bucket.

Around them sit the object-key builders, the path-based discovery of a configuration's
cloud and region, and the generation of the Terraform backend file.

The documents are typed records (`Documents`). Python's `.get` is modelled explicitly:

- A key that may be missing or `null` is an `Option`. `None` is itself a valid dictionary
  key, so resource keys are `Option<string>`.
- A scalar read with `.get(k, default)` is a `Field`. A `Field` keeps "absent" (the default
  applies) apart from "explicit `null`" (the value is `None`).
- A list read with `.get(k, [])` is an `Option` whose `None` means the key is absent.

Each `sys.exit(1)` and each raised exception is the `Failure` of a `Result`. The clock is
the parameter `now`. A bucket download is its outcome (`Download`). The process
environment is a map from names to values.

Modules, one per file:

- `Wrappers`: `Option`, `Result`, `Field`.
- `Sequences`: two concatenation facts.
- `Strings`: the two pieces of Python's `str` API the scripts call, `split` and
  `replace`, with Python's left-to-right, non-overlapping semantics. `Occurs`, `Find` and
  `Join` are reference definitions (Python's `in`, `find` and `join`) that `SplitOn` and
  `ReplaceAll` are stated against; the scripts do not call them.
- `LastWins`: the "later assignment overwrites" fold that both the ADB extraction and the
  agents map use.
- `Documents`: the JSON documents.
- `InventoryBuilder`: `parse_adb_resources` and `build_ansible_inventory`.
- `StateReconciler`: `load_state_from_bucket` and `update_state_with_manifest`.
- `Precheck`: the target-versus-hostvars check of `ansible_precheck.py`.
- `Discovery`: `extract_config_path`, `extract_region` and the two `discover_*`
  computations.
- `Config`: the object-key and log-file name builders.
- `TerraformSetup`: the environment check, the template choice and `replace_placeholders`.

Behaviour of the code worth noting:

- `build_ansible_inventory` calls `sys.exit(1)` inside its loop at the first declared ADB
  name that the Terraform state does not know. `BuildAnsibleInventory` returns that first
  unknown name together with the known names. The pre-check reports every missing name.
- The Azure template declares `backend "oci"`, so Azure configurations keep their
  Terraform state in the OCI bucket. `OciTemplate` and `AzureTemplate` share one
  `BackendBlock`.
- `update_state_with_manifest` stamps each outcome with the current time, so a replay of
  a manifest changes the timestamps. `UpdateIdempotent` holds `now` fixed.
- `download_from_bucket` returns `None` for every failed object read, not only for a
  missing object, and `load_state_from_bucket` then starts from an empty state (see
  Findings).

## Model

| member | source | states |
|---|---|---|
| Strings.SplitOn | scripts_python/discovery_functions.py:66 | `split` yields at least one piece, no piece contains the separator, and joining the pieces with the separator gives the text back |
| Strings.SplitJoin | scripts_python/discovery_functions.py:66-70 | for a one-character separator, splitting a join of separator-free pieces gives the pieces back |
| Strings.ReplaceIsSplitJoin | scripts_python/terraform_setup.py:91-94 | `replace` replaces every non-overlapping occurrence scanned from the left: it equals `v.join(s.split(tok))` |
| Strings.ReplaceAll | scripts_python/terraform_setup.py:91-94 | text that does not contain the token is returned unchanged |
| Strings.ReplaceAllConcat | scripts_python/terraform_setup.py:91-94 | when no occurrence can straddle the seam, replacing in `a + b` is replacing in `a` and in `b` |
| LastWins.AssignSpec | scripts_python/ansible_generate_inventory.py:60-69 | a sequence of dictionary assignments adds exactly the assigned keys, leaves every other key alone, and leaves each assigned key with the value of its last assignment |
| InventoryBuilder.ParseAdbResources | scripts_python/ansible_generate_inventory.py:38-71 | a missing document gives the empty map; the keys are exactly the keys of the ADB instances in document order; each key holds the record of its last instance |
| InventoryBuilder.AddResourcesIsAssign | scripts_python/ansible_generate_inventory.py:52-69 | the nested loops over resources and instances perform exactly the assignments of the flattened ADB entries, in document order |
| InventoryBuilder.NonAdbResourceIgnored | scripts_python/ansible_generate_inventory.py:52-57 | inserting a resource of any other type anywhere in the document leaves the extracted map unchanged |
| InventoryBuilder.SingleInstanceKey | scripts_python/ansible_generate_inventory.py:61-62 | an instance is keyed by `display_name` when present, by the resource `name` when the attribute is absent, and by None when it is an explicit null |
| InventoryBuilder.BuildFromSuccess | scripts_python/ansible_generate_inventory.py:95-115 | the loop succeeds exactly when every declared name is known; then `hosts` is the declared names in manifest order with duplicates, the hostvars keys are exactly the declared names, and the group list is `['adb_instances']` |
| InventoryBuilder.BuildFromLastWins | scripts_python/ansible_generate_inventory.py:99-115 | on success each declared name holds the host variables built from its last declaration |
| InventoryBuilder.BuildFromFailure | scripts_python/ansible_generate_inventory.py:95-133 | on failure the error names the first declared name, in manifest order, that is not known, and carries the known names |
| InventoryBuilder.BuildAnsibleInventory | scripts_python/ansible_generate_inventory.py:74-135 | success exactly when every declared name is known, with hosts, hostvars keys and groups as above; otherwise a failure at the first unknown name and no inventory |
| InventoryBuilder.HostVarsContents | scripts_python/ansible_generate_inventory.py:106-115 | host variables copy `ocid`, `state`, `db_name` and tags from the record and `action` from the target; `wait_for_state` defaults to true and `timeout_minutes` to 30 only when absent, while an explicit null stays null; the connection is `local` |
| InventoryBuilder.NoTargetsEmptyInventory | scripts_python/ansible_generate_inventory.py:80-93 | with no declared ADB targets the inventory has no hosts, no hostvars and the group list `['adb_instances']` |
| StateReconciler.LoadStateFromBucket | scripts_python/state_functions.py:15-56 | a non-`oci` cloud or no content gives the empty `1.0.0` state; parsed content is used as is; malformed JSON is the only failure and carries the parse detail |
| StateReconciler.FailedReadErasesHistory | scripts_python/oci_cli_utils.py:62-79 | a successful read of the stored history keeps an untargeted stored resource through the update; a failed read instead loads the empty state, and the updated state lacks that resource |
| StateReconciler.LoadState | scripts_python/state_functions.py:38-56 | loading fails exactly on `oci` when the read failed, with the CLI's output, or the content is malformed; a missing or empty object, or a non-`oci` cloud, gives the empty state |
| StateReconciler.LoadStateAgrees | scripts_python/state_functions.py:38-56 | apart from a failed `oci` read, loading agrees with the script's loading |
| StateReconciler.LoadedHistoryKept | scripts_python/state_functions.py:38-56 | when loading succeeds, every stored resource survives the update, and an empty start means the object was missing or empty |
| StateReconciler.AgentsInfo | scripts_python/state_functions.py:90-96 | one entry per distinct agent type; the last agent of a type gives the version; every `installed_at` is the reconciliation time |
| StateReconciler.RecordFrame | scripts_python/state_functions.py:81-123 | recording adds exactly the written keys and leaves every unwritten resource unchanged |
| StateReconciler.RecordLastWins | scripts_python/state_functions.py:114-123 | a written resource keeps its other operation types and holds, for this operation type, the last outcome written to it |
| StateReconciler.RecordAppend | scripts_python/state_functions.py:81-123 | running the VM loop and then the ADB loop is one loop over the concatenated writes |
| StateReconciler.RecordIdempotent | scripts_python/state_functions.py:114-123 | recording the same writes twice is recording them once |
| StateReconciler.WritesKeys | scripts_python/state_functions.py:81-123 | the keys written are exactly the VM `logical_key`s and the ADB `display_name`s |
| StateReconciler.RecordOperations | scripts_python/state_functions.py:86-123 | every written resource has an outcome for the operation type, and every other operation type of an existing resource keeps its outcome |
| StateReconciler.UpdateStateWithManifest | scripts_python/state_functions.py:59-125 | `last_updated` becomes the timestamp and the version is kept; the resource keys grow by exactly the target keys; untargeted resources and other operation types are unchanged; each target key has an outcome for the operation type |
| StateReconciler.UpdateIdempotent | scripts_python/state_functions.py:59-125 | applying the same manifest twice with the same timestamp equals applying it once |
| StateReconciler.AdbOutcomeWins | scripts_python/state_functions.py:81-123 | a key declared by an ADB target ends with the outcome of its last ADB declaration, even when a VM target shares the key |
| StateReconciler.VmOutcomeRecorded | scripts_python/state_functions.py:81-104 | a key declared only by VM targets ends with the outcome of its last VM declaration, including that target's agents |
| StateReconciler.RecordedOutcomeFields | scripts_python/state_functions.py:76-123 | every written outcome has status `success`, the manifest's `operation_version` defaulting to `1.0.0`, and the reconciliation time |
| StateReconciler.FreshStateOneAgent | scripts_python/state_functions.py:81-104 | one VM target with one agent in the empty state gives one resource with one operation whose agents map has one entry |
| Precheck.MissingSpec | scripts_python/ansible_precheck.py:40-44 | a name is reported exactly when some target declares it and it has no host variables |
| Precheck.MissingAppend | scripts_python/ansible_precheck.py:40-44 | the report keeps manifest order: checking `a + b` reports `a`'s missing names, then `b`'s |
| Precheck.MissingAll | scripts_python/ansible_precheck.py:40-44 | against empty host variables every declared name is reported, in order, duplicates included |
| Precheck.Precheck | scripts_python/ansible_precheck.py:24-58 | skipped exactly for a non-`oci` cloud; passes exactly when every declared name has host variables, counting the declared targets; otherwise fails listing every missing name |
| Documents.SavedHostvars | scripts_python/ansible_generate_inventory.py:179 | saving the inventory keeps every named host, apart from a None/`"null"` collision, and writes a None name under the key `"null"` |
| Precheck.BuiltInventoryPasses | scripts_python/ansible_precheck.py:36-44 | a saved inventory that the builder produced passes the check for the same manifest exactly when every declared name is a string, counting the declared targets; otherwise exactly the None name is reported |
| Precheck.BuildFailsAtFirstMissing | scripts_python/ansible_precheck.py:40-47 | the build fails exactly when the check would report a name, and the build's error names the first name the check reports |
| Precheck.MissingHostvarsFailsAll | scripts_python/ansible_precheck.py:38 | an inventory without `_meta` or without `hostvars` fails every declared target |
| Discovery.FirstCloudFrom | scripts_python/discovery_functions.py:32-36 | the index found is a cloud segment with no cloud segment before it; none is found only when no segment is a cloud |
| Discovery.ExtractConfigPath | scripts_python/discovery_functions.py:11-49 | fails exactly when no segment before the last is `oci` or `azure`; otherwise returns the first such segment, `/`, and the segment after it; the error is a missing region when the last segment is a cloud, and a missing cloud otherwise |
| Discovery.ExtractRegion | scripts_python/discovery_functions.py:52-70 | fails exactly when the path has no `/`; the region returned has no `/` |
| Discovery.RegionOfJoined | scripts_python/discovery_functions.py:66-70 | the region of `cloud/region` is `region` |
| Discovery.RegionIgnoresRest | scripts_python/discovery_functions.py:66-70 | segments after the second are ignored |
| Discovery.ConfigPathRegion | scripts_python/discovery_functions.py:45-70 | round trip: the region of an extracted configuration path is the segment after the first cloud segment of the original path |
| Discovery.ConfigPathIdempotent | scripts_python/discovery_functions.py:11-49 | extracting the configuration path of a configuration path gives it back |
| Discovery.DiscoverTerraformBackend | scripts_python/discovery_functions.py:73-101 | fails exactly when the path has no `/`; the sub-path is the configuration path, the region is the extracted one, and the state key is the Terraform state key of `config.py` |
| Discovery.DiscoverAnsibleOperation | scripts_python/discovery_functions.py:119-164 | a missing, null or empty operation type fails first; otherwise the path error propagates; on success the state key is the Ansible state key of `config.py` and the target count is VM targets plus ADB targets |
| Discovery.AnsibleOutputsHaveRegion | scripts_python/discovery_functions.py:180 | the region read back when writing a discovered operation's outputs always exists |
| Discovery.AnsibleKeyIsolated | scripts_python/discovery_functions.py:147 | a discovered operation's history key is never a Terraform state key |
| Discovery.ConfigPathOfFile | scripts_python/discovery_functions.py:11-49 | a file directly under `cloud/region`, for a cloud segment and slash-free region and file names, lives in `cloud/region` |
| Discovery.FrankfurtConfigPath | scripts_python/discovery_functions.py:15-16 | `oci/eu-frankfurt-1/compute.json` gives `oci/eu-frankfurt-1` |
| Discovery.FrankfurtRegion | scripts_python/discovery_functions.py:56-57 | the region of `oci/eu-frankfurt-1` is `eu-frankfurt-1` |
| Config.TerraformStateKey | scripts_python/config.py:47-56 | the key is exactly `bucket`, `/`, the configuration path, then `/terraform.tfstate` |
| Config.AnsibleStateKey | scripts_python/config.py:59-69 | the key is exactly `bucket`, `/ansible/`, the configuration path, `/ansible-state-`, the operation type, then `.json` |
| Config.AnsibleLogFile | scripts_python/config.py:72-79 | the name is `ansible-`, the mode, then `.log` |
| Config.TerraformStateKeyInjective | scripts_python/config.py:47-56 | in one bucket, distinct configuration paths give distinct Terraform keys |
| Config.AnsibleStateKeyInjective | scripts_python/config.py:59-69 | for a fixed bucket and configuration path, distinct operation types give distinct Ansible keys |
| Config.AnsibleKeyIsNotTerraformKey | scripts_python/config.py:66-69 | no Ansible state key equals any Terraform state key |
| Config.AnsibleLogFileInjective | scripts_python/config.py:72-79 | the check and execute modes write distinct log files |
| TerraformSetup.FirstUnset | scripts_python/terraform_setup.py:15-18 | none is found exactly when every name is set and non-empty; otherwise it is the first unset or empty name |
| TerraformSetup.CheckEnvironmentVariables | scripts_python/terraform_setup.py:11-20 | true exactly when `BUCKET_NAME`, `STATE_KEY`, `STATE_NAMESPACE` and `DETECTED_REGION` are all set and non-empty |
| TerraformSetup.SetupReportsFirstUnset | scripts_python/terraform_setup.py:13-18 | a failed check reports the first of the four variables, in checking order, that is unset or empty |
| TerraformSetup.ReplacePlaceholders | scripts_python/terraform_setup.py:89-95 | text with none of the four placeholders is returned unchanged |
| TerraformSetup.SelectTemplate | scripts_python/terraform_setup.py:115-124 | `oci` selects the OCI template, `azure` the Azure one, and any other cloud is an error naming it |
| TerraformSetup.SetupBackend | scripts_python/terraform_setup.py:110-127 | the environment is checked before the cloud; success exactly when both pass, and then the text is the chosen template with its placeholders replaced |
| TerraformSetup.TemplatesCarryPlaceholders | scripts_python/terraform_setup.py:53-84 | both templates contain each of the four placeholders |
| TerraformSetup.TokenFacts | scripts_python/terraform_setup.py:91-94 | no placeholder contains a placeholder replaced after it |
| TerraformSetup.BackendReplace | scripts_python/terraform_setup.py:53-59 | replacing a placeholder in the backend block replaces it in each of the four values and leaves the fixed lines alone |
| TerraformSetup.RenderedBackend | scripts_python/terraform_setup.py:89-95 | when no value holds a later placeholder, the rendered backend block holds the bucket, key, namespace and region values, with the empty string for an unset variable |
| TerraformSetup.SetupWritesBackend | scripts_python/terraform_setup.py:110-127 | a successful setup writes the cloud's header with its placeholders replaced, followed by a backend block holding the environment's four values |

## Left out

- I/O and process plumbing is not modelled: argument parsing, printing, `sys.exit`, reading
  and writing files, and the GitHub output and environment files. Failures are `Result`
  values instead.
- JSON encoding and decoding are not modelled. Documents are typed records, and a download
  is already classified as no content, malformed or parsed. "No content" covers every
  download that yields no text: a missing object, an empty one, and any failed CLI call.
- A None key in the state document is not modelled as it is serialised: `json.dump` writes
  it as the key `"null"`, and the model keeps it as None. This applies to three kinds of
  key: a resource key, a None `operation_type` used as a key of `operations`
  (state_functions.py:99, :118), and a None agent `type` used as a key of `agents`
  (state_functions.py:93).
- The OCI CLI call itself and `upload_to_bucket` are not modelled.
  `download_from_bucket`'s mapping of a missing object, a failed read and the object's
  content is modelled by `BucketRead` and `ScriptDownload`.
- `datetime.utcnow()` is not modelled: the formatted timestamp is the parameter `now`.
- `os.path.normpath` and `os.sep` are not modelled. Paths are taken as already normalised
  and `/`-separated.
- `get_work_temp`, `get_inventory_path`, `get_ansible_state_path` and
  `get_ansible_log_path` are not modelled. They join names onto an environment-supplied
  directory.
- Writing `providers.tf`, the `ORCH` folder existence check and `terraform fmt` are not
  modelled: they are file-system and subprocess effects.
- `utils.py`, `common.py`, `discover.py` and `ansible_state.py` are not part of this model.
  They are I/O, argv routing, a duplicate of the Terraform key builder, and a directory scan.
- An explicit `null` where a list or object is expected is not modelled. Examples are
  `"resources": null` or `"adb_resources": null`, which make Python raise `TypeError`. Such
  a field is modelled as missing.
- A state document without a `resources` member is not modelled. It makes
  `update_state_with_manifest` raise `KeyError`. `OperationState.resources` is always
  present.
- A stored resource entry is modelled as its `operations` map only. An existing entry
  without `operations` makes `update_state_with_manifest` raise `KeyError`
  (state_functions.py:99 for VM targets, :118 for ADB targets); the datatype cannot
  express that entry. Other members of a stored entry, which the script keeps, are not
  modelled either.
- Non-string values where the scripts expect strings are not modelled. Examples are a
  numeric `operation_type` or a numeric segment value.
- TerraformSetup.CheckEnvironmentVariables: returns only the verdict. The name of the
  first unset variable, which the script prints, is carried by `SetupBackend`'s
  `VariableNotSet` error (see `SetupReportsFirstUnset`).
- TerraformSetup.RenderedBackend: assumes that no substituted value contains a placeholder
  that is replaced after it. The script's sequential `replace` would rewrite such a value.
  The rendering in that case is modelled by `ReplacePlaceholders` but not characterised.
- TerraformSetup.TemplatesCarryPlaceholders: it is not proved that the provider headers
  themselves are free of placeholders. The backend block is characterised exactly;
  `RenderedBackend` keeps the header's own rendering as `ReplacePlaceholders(header)`.
- TerraformSetup.SetupWritesBackend: assumes `SurvivesLaterReplacements`, that no value
  contains a placeholder replaced after it, and gives the header only as
  `ReplacePlaceholders(header)`.
- Documents.SavedHostvars: when the hostvars hold both None and `"null"`, `json.dump` writes
  two `"null"` keys and reading the file back keeps the later one, which depends on
  insertion order. The model keeps the `"null"` host's own value, so "keeps every named
  host" is not promised for that collision.
- Precheck.BuiltInventoryPasses: the saved inventory maps a None name to the key `"null"`.
  When the hostvars hold both None and `"null"`, which value `json.dump` keeps depends on
  insertion order; the model keeps the `"null"` one.

## Findings

| source | as written | input that shows it | evidently intended | confidence | as-written member | corrected member |
|---|---|---|---|---|---|---|
| scripts_python/oci_cli_utils.py:62-79 | every failed object read returns None, which `load_state_from_bucket` (state_functions.py:42-56) treats as no prior state | a read that fails on a network error or timeout while the bucket holds history with resource `k` that the manifest does not target; the update then uploads a state without `k` | a failed read other than a missing object aborts the load | medium, not executed | StateReconciler.FailedReadErasesHistory | StateReconciler.LoadState |
