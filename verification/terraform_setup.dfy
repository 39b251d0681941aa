/** `terraform_setup.py`: the check that the backend variables are set, the choice of the
    `providers.tf` template by cloud, and the substitution of the four backend placeholders
    with the environment's values. The environment is a map from variable names to values. */
module TerraformSetup {
  import opened Wrappers
  import opened Strings

  type Environment = map<string, string>

  const RequiredVariables := ["BUCKET_NAME", "STATE_KEY", "STATE_NAMESPACE", "DETECTED_REGION"]

  const BucketToken := "__BUCKET__"
  const KeyToken := "__KEY__"
  const NamespaceToken := "__NAMESPACE__"
  const RegionToken := "__REGION__"

  datatype SetupError =
    | VariableNotSet(name: string)   // the first required variable that is unset or empty
    | UnsupportedCloud(cloud: string)

  /** `os.environ.get(name, "")`. */
  function EnvGet(env: Environment, name: string): string {
    if name in env then env[name] else ""
  }

  /** `os.environ.get(name)` is truthy: present and not empty. */
  predicate IsSet(env: Environment, name: string) {
    name in env && env[name] != ""
  }

  /** The loop of `check_environment_variables`: the first name that is not set, if any. */
  function FirstUnset(env: Environment, names: seq<string>): (r: Option<string>)
    decreases |names|
    ensures r.None? <==> forall i :: 0 <= i < |names| ==> IsSet(env, names[i])
    ensures r.Some? ==> exists i :: && 0 <= i < |names| && names[i] == r.value && !IsSet(env, r.value)
                                    && forall j :: 0 <= j < i ==> IsSet(env, names[j])
  {
    if |names| == 0 then None
    else if !IsSet(env, names[0]) then Some(names[0])
    else
      var r := FirstUnset(env, names[1..]);
      if r.Some? then
        var i :| && 0 <= i < |names[1..]| && names[1..][i] == r.value && !IsSet(env, r.value)
                 && forall j :: 0 <= j < i ==> IsSet(env, names[1..][j]);
        assert names[i + 1] == r.value;
        r
      else r
  }

  /** `check_environment_variables`: all four backend variables are set and non-empty. */
  function CheckEnvironmentVariables(env: Environment): (ok: bool)
    ensures ok <==> && IsSet(env, "BUCKET_NAME") && IsSet(env, "STATE_KEY")
                    && IsSet(env, "STATE_NAMESPACE") && IsSet(env, "DETECTED_REGION")
  {
    var r := FirstUnset(env, RequiredVariables);
    assert r.None? <==> forall i :: 0 <= i < 4 ==> IsSet(env, RequiredVariables[i]);
    r.None?
  }

  /** None of the four placeholders occurs in `text`. */
  predicate PlaceholderFree(text: string) {
    && !Occurs(text, BucketToken) && !Occurs(text, KeyToken)
    && !Occurs(text, NamespaceToken) && !Occurs(text, RegionToken)
  }

  /** `replace_placeholders`: four sequential `replace`s, each with the variable's value or
      the empty string. Text with none of the placeholders is returned unchanged. */
  function ReplacePlaceholders(text: string, env: Environment): (r: string)
    ensures PlaceholderFree(text) ==> r == text
  {
    var t1 := ReplaceAll(text, BucketToken, EnvGet(env, "BUCKET_NAME"));
    var t2 := ReplaceAll(t1, KeyToken, EnvGet(env, "STATE_KEY"));
    var t3 := ReplaceAll(t2, NamespaceToken, EnvGet(env, "STATE_NAMESPACE"));
    ReplaceAll(t3, RegionToken, EnvGet(env, "DETECTED_REGION"))
  }

  // ----- The templates -----

  const OciHeader :=
        "provider \"oci\" {\n"
      + "  auth                = \"InstancePrincipal\"\n"
      + "  region              = var.region\n"
      + "  ignore_defined_tags = [\"Oracle-Tags.CreatedBy\", \"Oracle-Tags.CreatedOn\"]\n"
      + "}\n"
      + "\n"
      + "provider \"oci\" {\n"
      + "  auth                = \"InstancePrincipal\"\n"
      + "  alias               = \"home\"\n"
      + "  region              = var.region\n"
      + "  ignore_defined_tags = [\"Oracle-Tags.CreatedBy\", \"Oracle-Tags.CreatedOn\"]\n"
      + "}\n"
      + "\n"
      + "provider \"oci\" {\n"
      + "  auth                = \"InstancePrincipal\"\n"
      + "  alias               = \"secondary_region\"\n"
      + "  region              = var.region\n"
      + "  ignore_defined_tags = [\"Oracle-Tags.CreatedBy\", \"Oracle-Tags.CreatedOn\"]\n"
      + "}\n"
      + "\n"
      + "terraform {\n"
      + "  required_version = \">= 1.12.0\"\n"
      + "  required_providers {\n"
      + "    oci = {\n"
      + "      source                = \"oracle/oci\"\n"
      + "      configuration_aliases = [oci.home]\n"
      + "    }\n"
      + "  }\n"

  const AzureHeader :=
        "provider \"azurerm\" {\n"
      + "  features {}\n"
      + "}\n"
      + "\n"
      + "terraform {\n"
      + "  required_version = \">= 1.12.0\"\n"
      + "  required_providers {\n"
      + "    azurerm = {\n"
      + "      source  = \"hashicorp/azurerm\"\n"
      + "      version = \"~> 3.0\"\n"
      + "    }\n"
      + "  }\n"

  /** The `backend "oci"` block both templates end with, with `x1`..`x4` in the places of
      the bucket, key, namespace and region (grouped from the right, one line at a time). */
  function Backend(x1: string, x2: string, x3: string, x4: string): string {
    BackendOpen + (x1 + (KeyLine + (x2 + (NamespaceLine + (x3 + (RegionLine + (x4 + BackendClose)))))))
  }

  const BackendOpen := "  backend \"oci\" {\n" + "    bucket    = \""
  const KeyLine := "\"\n" + "    key       = \""
  const NamespaceLine := "\"\n" + "    namespace = \""
  const RegionLine := "\"\n" + "    auth      = " + "\"InstancePrincipal\"" + "\n    region    = \""
  const BackendClose := "\"\n  }\n}\n"

  const BackendBlock := Backend(BucketToken, KeyToken, NamespaceToken, RegionToken)

  /** Both templates declare an `oci` backend: the Azure one stores its state in the OCI
      bucket too. */
  const OciTemplate := OciHeader + BackendBlock
  const AzureTemplate := AzureHeader + BackendBlock

  /** The template chosen for a cloud: `oci` and `azure` have one, any other cloud is an
      error. */
  function SelectTemplate(cloud: string): (r: Result<string, SetupError>)
    ensures r.Success? <==> cloud == "oci" || cloud == "azure"
    ensures r.Failure? ==> r.error == UnsupportedCloud(cloud)
    ensures cloud == "oci" ==> r == Success(OciTemplate)
    ensures cloud == "azure" ==> r == Success(AzureTemplate)
    ensures r.Success? ==> r.value == HeaderOf(cloud) + BackendBlock
  {
    if cloud == "oci" then Success(OciTemplate)
    else if cloud == "azure" then Success(AzureTemplate)
    else Failure(UnsupportedCloud(cloud))
  }

  function HeaderOf(cloud: string): string {
    if cloud == "oci" then OciHeader else AzureHeader
  }

  /** The text `main` writes to `providers.tf`: the environment is checked before the cloud,
      then the cloud's template has its placeholders replaced. */
  function SetupBackend(cloud: string, env: Environment): (r: Result<string, SetupError>)
    ensures r.Success? <==> CheckEnvironmentVariables(env) && (cloud == "oci" || cloud == "azure")
    ensures !CheckEnvironmentVariables(env) ==> r.Failure? && r.error.VariableNotSet? && !IsSet(env, r.error.name)
    ensures CheckEnvironmentVariables(env) && cloud != "oci" && cloud != "azure" ==> r == Failure(UnsupportedCloud(cloud))
    ensures r.Success? ==> r.value == ReplacePlaceholders(HeaderOf(cloud) + BackendBlock, env)
  {
    match FirstUnset(env, RequiredVariables)
    case Some(name) => Failure(VariableNotSet(name))
    case None =>
      match SelectTemplate(cloud)
      case Failure(e) => Failure(e)
      case Success(template) => Success(ReplacePlaceholders(template, env))
  }

  /** A failed environment check names the first of the four variables, in the order the
      script checks them, that is unset or empty. */
  lemma SetupReportsFirstUnset(cloud: string, env: Environment)
    requires !CheckEnvironmentVariables(env)
    ensures var r := SetupBackend(cloud, env);
            exists i :: && 0 <= i < |RequiredVariables| && r == Failure(VariableNotSet(RequiredVariables[i]))
                        && !IsSet(env, RequiredVariables[i])
                        && forall j :: 0 <= j < i ==> IsSet(env, RequiredVariables[j])
  {
  }

  // ----- Properties of the templates and their rendering -----

  /** Whatever precedes it, a backend block contains each of its four values. */
  lemma BackendCarries(h: string, x1: string, x2: string, x3: string, x4: string)
    requires |x1| > 0 && |x2| > 0 && |x3| > 0 && |x4| > 0
    ensures Occurs(h + Backend(x1, x2, x3, x4), x1) && Occurs(h + Backend(x1, x2, x3, x4), x2)
    ensures Occurs(h + Backend(x1, x2, x3, x4), x3) && Occurs(h + Backend(x1, x2, x3, x4), x4)
  {
    var r4 := x4 + BackendClose;
    var r3 := x3 + (RegionLine + r4);
    var r2 := x2 + (NamespaceLine + r3);
    var r1 := x1 + (KeyLine + r2);
    OccursAtStart(x4, BackendClose);
    OccursAtStart(x3, RegionLine + r4);
    OccursAtStart(x2, NamespaceLine + r3);
    OccursAtStart(x1, KeyLine + r2);
    OccursExtendLeft(RegionLine, r4, x4);
    OccursExtendLeft(x3, RegionLine + r4, x4);
    OccursExtendLeft(NamespaceLine, r3, x4);
    OccursExtendLeft(NamespaceLine, r3, x3);
    OccursExtendLeft(x2, NamespaceLine + r3, x4);
    OccursExtendLeft(x2, NamespaceLine + r3, x3);
    OccursExtendLeft(KeyLine, r2, x4);
    OccursExtendLeft(KeyLine, r2, x3);
    OccursExtendLeft(KeyLine, r2, x2);
    OccursExtendLeft(x1, KeyLine + r2, x4);
    OccursExtendLeft(x1, KeyLine + r2, x3);
    OccursExtendLeft(x1, KeyLine + r2, x2);
    var b := Backend(x1, x2, x3, x4);
    assert b == BackendOpen + r1;
    OccursExtendLeft(BackendOpen, r1, x1);
    OccursExtendLeft(BackendOpen, r1, x2);
    OccursExtendLeft(BackendOpen, r1, x3);
    OccursExtendLeft(BackendOpen, r1, x4);
    OccursExtendLeft(h, b, x1);
    OccursExtendLeft(h, b, x2);
    OccursExtendLeft(h, b, x3);
    OccursExtendLeft(h, b, x4);
  }

  /** Whatever header precedes it, the backend block contains each of the four placeholders. */
  lemma BlockCarriesPlaceholders(h: string)
    ensures Occurs(h + BackendBlock, BucketToken) && Occurs(h + BackendBlock, KeyToken)
    ensures Occurs(h + BackendBlock, NamespaceToken) && Occurs(h + BackendBlock, RegionToken)
  {
    BackendCarries(h, BucketToken, KeyToken, NamespaceToken, RegionToken);
  }

  /** Both templates contain each of the four placeholders in their backend block. */
  lemma TemplatesCarryPlaceholders()
    ensures Occurs(OciTemplate, BucketToken) && Occurs(OciTemplate, KeyToken)
    ensures Occurs(OciTemplate, NamespaceToken) && Occurs(OciTemplate, RegionToken)
    ensures Occurs(AzureTemplate, BucketToken) && Occurs(AzureTemplate, KeyToken)
    ensures Occurs(AzureTemplate, NamespaceToken) && Occurs(AzureTemplate, RegionToken)
  {
    BlockCarriesPlaceholders(OciHeader);
    BlockCarriesPlaceholders(AzureHeader);
  }

  /** Each placeholder has an underscore and neither a quote nor a space. */
  predicate IsPlaceholderLike(tok: string) {
    |tok| > 0 && '_' in tok && '"' !in tok && ' ' !in tok
  }

  /** A fixed line without an underscore holds no placeholder-like token. */
  lemma PlainLine(line: string, tok: string, v: string)
    requires IsPlaceholderLike(tok) && '_' !in line
    ensures ReplaceAll(line, tok, v) == line
  {
    MissingCharNoOccurrence(line, tok, '_');
  }

  /** No fixed line of the block has an underscore. */
  lemma LinesPlain()
    ensures '_' !in BackendOpen && '_' !in KeyLine && '_' !in NamespaceLine
    ensures '_' !in RegionLine && '_' !in BackendClose
  {
  }

  /** The fixed lines have a quote wherever they meet a value. */
  lemma LineEnds()
    ensures BackendOpen[0] == ' ' && BackendOpen[|BackendOpen| - 1] == '"'
    ensures KeyLine[0] == '"' && KeyLine[|KeyLine| - 1] == '"'
    ensures NamespaceLine[0] == '"' && NamespaceLine[|NamespaceLine| - 1] == '"'
    ensures RegionLine[0] == '"' && RegionLine[|RegionLine| - 1] == '"'
    ensures BackendClose[0] == '"'
  {
  }

  /** One fixed line of the block followed by one value and the rest of the block. */
  lemma ReplaceLineValue(line: string, x: string, rest: string, tok: string, v: string)
    requires IsPlaceholderLike(tok) && '_' !in line
    requires |line| > 0 && line[|line| - 1] == '"'
    requires |rest| > 0 && rest[0] == '"'
    ensures ReplaceAll(line + (x + rest), tok, v) == line + (ReplaceAll(x, tok, v) + ReplaceAll(rest, tok, v))
  {
    PlainLine(line, tok, v);
    ReplaceAllConcat(line, x + rest, tok, v);
    ReplaceAllConcat(x, rest, tok, v);
  }

  /** Replacing a placeholder-like token in a backend block replaces it in each of the four
      values and leaves the fixed lines alone: the quotes around each value keep an
      occurrence from straddling a value and a fixed line. */
  lemma BackendReplace(x1: string, x2: string, x3: string, x4: string, tok: string, v: string)
    requires IsPlaceholderLike(tok)
    ensures ReplaceAll(Backend(x1, x2, x3, x4), tok, v) ==
            Backend(ReplaceAll(x1, tok, v), ReplaceAll(x2, tok, v), ReplaceAll(x3, tok, v), ReplaceAll(x4, tok, v))
  {
    var r4 := x4 + BackendClose;
    var r3 := x3 + (RegionLine + r4);
    var r2 := x2 + (NamespaceLine + r3);
    LinesPlain();
    LineEnds();
    PlainLine(BackendClose, tok, v);
    ReplaceLineValue(RegionLine, x4, BackendClose, tok, v);
    ReplaceLineValue(NamespaceLine, x3, RegionLine + r4, tok, v);
    ReplaceLineValue(KeyLine, x2, NamespaceLine + r3, tok, v);
    ReplaceLineValue(BackendOpen, x1, KeyLine + r2, tok, v);
  }

  /** Replacing a placeholder-like token in a template replaces it in the header and in
      each of the backend block's values. */
  lemma ReplaceInTemplate(h: string, x1: string, x2: string, x3: string, x4: string, tok: string, v: string)
    requires IsPlaceholderLike(tok)
    ensures ReplaceAll(h + Backend(x1, x2, x3, x4), tok, v) ==
            ReplaceAll(h, tok, v) + Backend(ReplaceAll(x1, tok, v), ReplaceAll(x2, tok, v), ReplaceAll(x3, tok, v), ReplaceAll(x4, tok, v))
  {
    LinesPlain();
    LineEnds();
    assert Backend(x1, x2, x3, x4)[0] == BackendOpen[0];
    ReplaceAllConcat(h, Backend(x1, x2, x3, x4), tok, v);
    BackendReplace(x1, x2, x3, x4, tok, v);
  }

  /** The four placeholders are placeholder-like. */
  lemma TokenShapes()
    ensures IsPlaceholderLike(BucketToken) && IsPlaceholderLike(KeyToken)
    ensures IsPlaceholderLike(NamespaceToken) && IsPlaceholderLike(RegionToken)
  {
  }

  /** Each placeholder has a letter that no later placeholder has. */
  lemma TokenLetters()
    ensures 'B' in BucketToken && 'B' !in KeyToken && 'B' !in NamespaceToken && 'B' !in RegionToken
    ensures 'K' in KeyToken && 'K' !in NamespaceToken && 'K' !in RegionToken
    ensures 'M' in NamespaceToken && 'M' !in RegionToken
  {
  }

  /** No placeholder contains a later one. */
  lemma TokenFacts()
    ensures !Occurs(KeyToken, BucketToken) && !Occurs(NamespaceToken, BucketToken) && !Occurs(RegionToken, BucketToken)
    ensures !Occurs(NamespaceToken, KeyToken) && !Occurs(RegionToken, KeyToken)
    ensures !Occurs(RegionToken, NamespaceToken)
  {
    TokenLetters();
    MissingCharNoOccurrence(KeyToken, BucketToken, 'B');
    MissingCharNoOccurrence(NamespaceToken, BucketToken, 'B');
    MissingCharNoOccurrence(RegionToken, BucketToken, 'B');
    MissingCharNoOccurrence(NamespaceToken, KeyToken, 'K');
    MissingCharNoOccurrence(RegionToken, KeyToken, 'K');
    MissingCharNoOccurrence(RegionToken, NamespaceToken, 'M');
  }

  /** A value substituted early is scanned again by the later replacements, so it survives
      only if it holds none of the later placeholders. */
  predicate SurvivesLaterReplacements(env: Environment) {
    && !Occurs(EnvGet(env, "BUCKET_NAME"), KeyToken)
    && !Occurs(EnvGet(env, "BUCKET_NAME"), NamespaceToken)
    && !Occurs(EnvGet(env, "BUCKET_NAME"), RegionToken)
    && !Occurs(EnvGet(env, "STATE_KEY"), NamespaceToken)
    && !Occurs(EnvGet(env, "STATE_KEY"), RegionToken)
    && !Occurs(EnvGet(env, "STATE_NAMESPACE"), RegionToken)
  }

  /** Rendering a template puts the environment's bucket, key, namespace and region (the
      empty string for an unset variable) into the four places of its backend block. */
  lemma RenderedBackend(h: string, env: Environment)
    requires SurvivesLaterReplacements(env)
    ensures ReplacePlaceholders(h + BackendBlock, env) ==
            ReplacePlaceholders(h, env) +
            Backend(EnvGet(env, "BUCKET_NAME"), EnvGet(env, "STATE_KEY"),
                    EnvGet(env, "STATE_NAMESPACE"), EnvGet(env, "DETECTED_REGION"))
  {
    var vb, vk := EnvGet(env, "BUCKET_NAME"), EnvGet(env, "STATE_KEY");
    var vn, vr := EnvGet(env, "STATE_NAMESPACE"), EnvGet(env, "DETECTED_REGION");
    TokenShapes();
    TokenFacts();
    var h1 := ReplaceAll(h, BucketToken, vb);
    var h2 := ReplaceAll(h1, KeyToken, vk);
    var h3 := ReplaceAll(h2, NamespaceToken, vn);
    ReplaceInTemplate(h, BucketToken, KeyToken, NamespaceToken, RegionToken, BucketToken, vb);
    ReplaceAllWhole(BucketToken, vb);
    ReplaceInTemplate(h1, vb, KeyToken, NamespaceToken, RegionToken, KeyToken, vk);
    ReplaceAllWhole(KeyToken, vk);
    ReplaceInTemplate(h2, vb, vk, NamespaceToken, RegionToken, NamespaceToken, vn);
    ReplaceAllWhole(NamespaceToken, vn);
    ReplaceInTemplate(h3, vb, vk, vn, RegionToken, RegionToken, vr);
    ReplaceAllWhole(RegionToken, vr);
  }

  /** The `providers.tf` text of a successful setup: the cloud's header with its
      placeholders replaced, then a backend block holding the environment's four values. */
  lemma SetupWritesBackend(cloud: string, env: Environment)
    requires SetupBackend(cloud, env).Success?
    requires SurvivesLaterReplacements(env)
    ensures SetupBackend(cloud, env).value ==
            ReplacePlaceholders(HeaderOf(cloud), env) +
            Backend(env["BUCKET_NAME"], env["STATE_KEY"], env["STATE_NAMESPACE"], env["DETECTED_REGION"])
  {
    RenderedBackend(HeaderOf(cloud), env);
  }
}
