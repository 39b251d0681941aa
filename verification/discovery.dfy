/** `discovery_functions.py`: where a configuration lives (`<cloud>/<region>`), derived from
    the path of a configuration or operation file, and the backend and state keys that
    follow from it. */
module Discovery {
  import opened Wrappers
  import opened Strings
  import opened Documents
  import Config

  datatype DiscoveryError =
    | NoCloudProvider        // no path segment is `oci` or `azure`
    | NoRegion               // the cloud segment is the last one
    | InvalidConfigPath      // the configuration path has no `/`
    | MissingOperationType   // the manifest's `operation_type` is missing, null or empty

  datatype TerraformBackend = TerraformBackend(region: string, configSubpath: string, stateKey: string)

  datatype AnsibleOperation = AnsibleOperation(
    operationType: string,
    configSubpath: string,
    stateKey: string,
    targetCount: nat)

  predicate IsCloud(segment: string) {
    segment == "oci" || segment == "azure"
  }

  /** The index of the first cloud segment at or after `from`. */
  function FirstCloudFrom(parts: seq<string>, from: nat): (r: Option<nat>)
    requires from <= |parts|
    decreases |parts| - from
    ensures r.Some? ==> from <= r.value < |parts| && IsCloud(parts[r.value])
    ensures r.Some? ==> forall j :: from <= j < r.value ==> !IsCloud(parts[j])
    ensures r.None? ==> forall j :: from <= j < |parts| ==> !IsCloud(parts[j])
  {
    if from == |parts| then None
    else if IsCloud(parts[from]) then Some(from)
    else FirstCloudFrom(parts, from + 1)
  }

  /** `extract_config_path`: `<cloud>/<region>` from the first `oci` or `azure` segment of
      the path and the segment after it. */
  function ExtractConfigPath(path: string): (r: Result<string, DiscoveryError>)
    ensures var parts := SplitOn(path, "/");
            r.Failure? <==> (forall i :: 0 <= i < |parts| - 1 ==> !IsCloud(parts[i]))
    ensures var parts := SplitOn(path, "/");
            r.Failure? ==> r.error == (if IsCloud(parts[|parts| - 1]) then NoRegion else NoCloudProvider)
    ensures var parts := SplitOn(path, "/");
            r.Success? ==> exists i :: && 0 <= i < |parts| - 1 && IsCloud(parts[i])
                                      && (forall j :: 0 <= j < i ==> !IsCloud(parts[j]))
                                      && r.value == parts[i] + "/" + parts[i + 1]
  {
    var parts := SplitOn(path, "/");
    match FirstCloudFrom(parts, 0)
    case None => Failure(NoCloudProvider)
    case Some(i) =>
      if i + 1 >= |parts| then Failure(NoRegion)
      else Success(parts[i] + "/" + parts[i + 1])
  }

  /** `extract_region`: the second `/`-separated segment of a configuration path. */
  function ExtractRegion(configPath: string): (r: Result<string, DiscoveryError>)
    ensures r.Failure? <==> !Occurs(configPath, "/")
    ensures r.Success? ==> !Occurs(r.value, "/")
  {
    var parts := SplitOn(configPath, "/");
    if |parts| < 2 then
      SplitOnSingle(configPath);
      Failure(InvalidConfigPath)
    else
      assert parts[1] in parts;
      SplitOnSeveral(configPath);
      Success(parts[1])
  }

  /** A text the split leaves whole contains no separator. */
  lemma SplitOnSingle(s: string)
    requires |SplitOn(s, "/")| < 2
    ensures !Occurs(s, "/")
  {
    assert SplitOn(s, "/")[0] in SplitOn(s, "/");
    assert s == Join(SplitOn(s, "/"), "/");
  }

  /** A text the split cuts contains the separator. */
  lemma SplitOnSeveral(s: string)
    requires |SplitOn(s, "/")| >= 2
    ensures Occurs(s, "/")
  {
    FindSpec(s, "/");
  }

  /** `cloud + "/" + region` splits back into the two, when neither holds a `/`. */
  lemma RegionOfJoined(cloud: string, region: string)
    requires !Occurs(cloud, "/") && !Occurs(region, "/")
    ensures ExtractRegion(cloud + "/" + region) == Success(region)
  {
    var parts := [cloud, region];
    assert Join(parts[1..], "/") == region;
    SplitJoin(parts, "/");
  }

  /** Only the second segment is read: whatever follows the region is ignored. */
  lemma RegionIgnoresRest(cloud: string, region: string, rest: string)
    requires !Occurs(cloud, "/") && !Occurs(region, "/")
    ensures ExtractRegion(cloud + "/" + (region + "/" + rest)) == Success(region)
  {
    SplitOnFirst(cloud, "/", region + "/" + rest);
    SplitOnFirst(region, "/", rest);
    assert SplitOn(cloud + "/" + (region + "/" + rest), "/")[1] == region;
  }

  /** Round trip: the region read back from a discovered configuration path is the segment
      that follows the first cloud segment of the original path. */
  lemma ConfigPathRegion(path: string)
    requires ExtractConfigPath(path).Success?
    ensures var parts := SplitOn(path, "/");
            && FirstCloudFrom(parts, 0).Some? && FirstCloudFrom(parts, 0).value + 1 < |parts|
            && ExtractRegion(ExtractConfigPath(path).value) == Success(parts[FirstCloudFrom(parts, 0).value + 1])
  {
    var parts := SplitOn(path, "/");
    var i := FirstCloudFrom(parts, 0).value;
    assert parts[i] in parts && parts[i + 1] in parts;
    RegionOfJoined(parts[i], parts[i + 1]);
  }

  /** A configuration path is its own configuration path: extracting twice is extracting
      once. */
  lemma ConfigPathIdempotent(path: string)
    requires ExtractConfigPath(path).Success?
    ensures ExtractConfigPath(ExtractConfigPath(path).value) == ExtractConfigPath(path)
  {
    var parts := SplitOn(path, "/");
    var i := FirstCloudFrom(parts, 0).value;
    var cloud, region := parts[i], parts[i + 1];
    assert cloud in parts && region in parts;
    var pair := [cloud, region];
    assert Join(pair[1..], "/") == region;
    SplitJoin(pair, "/");
    assert FirstCloudFrom(pair, 0) == Some(0);
  }

  /** `discover_terraform_backend`: the region of the configuration path, the path itself
      as sub-path, and the Terraform state key for it. */
  function DiscoverTerraformBackend(bucket: string, configPath: string): (r: Result<TerraformBackend, DiscoveryError>)
    ensures r.Failure? <==> !Occurs(configPath, "/")
    ensures r.Failure? ==> r.error == InvalidConfigPath
    ensures r.Success? ==> r.value.configSubpath == configPath
    ensures r.Success? ==> Success(r.value.region) == ExtractRegion(configPath)
    ensures r.Success? ==> r.value.stateKey == Config.TerraformStateKey(bucket, configPath)
  {
    var region :- ExtractRegion(configPath);
    Success(TerraformBackend(region, configPath, bucket + "/" + configPath + "/" + "terraform.tfstate"))
  }

  /** `not operation_type`: missing, null or the empty string. */
  predicate MissingOperation(op: Option<string>) {
    op.None? || op.value == ""
  }

  /** `discover_ansible_operation`: the operation type is checked before the path; the state
      key is the operation history's key; the target count adds VM and ADB targets. */
  function DiscoverAnsibleOperation(bucket: string, operationFile: string, manifest: Manifest): (r: Result<AnsibleOperation, DiscoveryError>)
    ensures MissingOperation(manifest.operationType) ==> r == Failure(MissingOperationType)
    ensures !MissingOperation(manifest.operationType) && ExtractConfigPath(operationFile).Failure? ==>
              r == Failure(ExtractConfigPath(operationFile).error)
    ensures r.Success? <==> !MissingOperation(manifest.operationType) && ExtractConfigPath(operationFile).Success?
    ensures r.Success? ==>
              && r.value.operationType == manifest.operationType.value
              && r.value.configSubpath == ExtractConfigPath(operationFile).value
              && r.value.stateKey == Config.AnsibleStateKey(bucket, r.value.configSubpath, r.value.operationType)
              && r.value.targetCount == |VmTargets(manifest)| + |AdbTargets(manifest)|
  {
    if MissingOperation(manifest.operationType) then Failure(MissingOperationType)
    else
      var op := manifest.operationType.value;
      var configPath :- ExtractConfigPath(operationFile);
      var stateKey := bucket + "/ansible/" + configPath + "/ansible-state-" + op + ".json";
      Success(AnsibleOperation(op, configPath, stateKey, |VmTargets(manifest)| + |AdbTargets(manifest)|))
  }

  /** Writing the outputs of a discovered operation reads the region back from its
      configuration path; that never fails. */
  lemma AnsibleOutputsHaveRegion(bucket: string, operationFile: string, manifest: Manifest)
    requires DiscoverAnsibleOperation(bucket, operationFile, manifest).Success?
    ensures ExtractRegion(DiscoverAnsibleOperation(bucket, operationFile, manifest).value.configSubpath).Success?
  {
    ConfigPathRegion(operationFile);
  }

  /** Discovery and the builders of `config.py` name the same objects: a discovered
      operation's history key is the Ansible state key, which no Terraform key collides with. */
  lemma AnsibleKeyIsolated(bucket: string, operationFile: string, manifest: Manifest, cp: string)
    requires DiscoverAnsibleOperation(bucket, operationFile, manifest).Success?
    ensures DiscoverAnsibleOperation(bucket, operationFile, manifest).value.stateKey != Config.TerraformStateKey(bucket, cp)
  {
    var d := DiscoverAnsibleOperation(bucket, operationFile, manifest).value;
    Config.AnsibleKeyIsNotTerraformKey(bucket, d.configSubpath, d.operationType, bucket, cp);
  }

  /** A text without the `/` character does not contain the separator. */
  lemma NoSlash(s: string)
    requires forall i :: 0 <= i < |s| ==> s[i] != '/'
    ensures !Occurs(s, "/")
  {
    forall j | 0 <= j <= |s| ensures !MatchAt(s, "/", j) {
      if j + 1 <= |s| {
        assert s[j..j + 1][0] == s[j];
      }
    }
    FindSpec(s, "/");
  }

  /** A file directly under `cloud/region` lives in `cloud/region`. */
  lemma ConfigPathOfFile(cloud: string, region: string, file: string)
    requires IsCloud(cloud) && !Occurs(region, "/") && !Occurs(file, "/")
    ensures ExtractConfigPath(cloud + "/" + region + "/" + file) == Success(cloud + "/" + region)
  {
    var path := cloud + "/" + region + "/" + file;
    NoSlash(cloud);
    var parts := [cloud, region, file];
    assert Join(parts, "/") == path by {
      assert Join(parts[2..], "/") == file;
      assert Join(parts[1..], "/") == region + "/" + file;
    }
    SplitJoin(parts, "/");
    assert FirstCloudFrom(parts, 0) == Some(0);
  }

  /** The docstring's example path, segment by segment. */
  lemma FrankfurtSegments()
    ensures "oci/eu-frankfurt-1" == "oci" + "/" + "eu-frankfurt-1"
    ensures "oci/eu-frankfurt-1/compute.json" == "oci/eu-frankfurt-1" + "/" + "compute.json"
    ensures !Occurs("eu-frankfurt-1", "/") && !Occurs("compute.json", "/")
  {
    NoSlash("eu-frankfurt-1");
    NoSlash("compute.json");
  }

  /** The docstring's example: `oci/eu-frankfurt-1/compute.json` lives in
      `oci/eu-frankfurt-1`. */
  lemma FrankfurtConfigPath()
    ensures ExtractConfigPath("oci/eu-frankfurt-1/compute.json") == Success("oci/eu-frankfurt-1")
  {
    FrankfurtSegments();
    ConfigPathOfFile("oci", "eu-frankfurt-1", "compute.json");
  }

  /** The docstring's example: the region of `oci/eu-frankfurt-1` is `eu-frankfurt-1`. */
  lemma FrankfurtRegion()
    ensures ExtractRegion("oci/eu-frankfurt-1") == Success("eu-frankfurt-1")
  {
    FrankfurtSegments();
    NoSlash("oci");
    RegionOfJoined("oci", "eu-frankfurt-1");
  }
}
