/** `config.py`: the object keys under which the scripts keep their state in the bucket,
    and the name of the Ansible log file. */
module Config {

  const TerraformStateFile := "terraform.tfstate"

  /** `{bucket}/{config_path}/terraform.tfstate`. */
  function TerraformStateKey(bucket: string, configPath: string): (key: string)
    ensures |key| == |bucket| + |configPath| + |TerraformStateFile| + 2
    ensures key[..|bucket| + 1] == bucket + "/"
    ensures key[|bucket| + 1..|key| - |TerraformStateFile| - 1] == configPath
    ensures key[|key| - |TerraformStateFile| - 1..] == "/" + TerraformStateFile
  {
    bucket + "/" + configPath + "/" + TerraformStateFile
  }

  /** `{bucket}/ansible/{config_path}/ansible-state-{operation}.json`: one history per
      configuration path and operation type, under a separate `ansible/` prefix. */
  function AnsibleStateKey(bucket: string, configPath: string, operation: string): (key: string)
    ensures |key| == |bucket| + |configPath| + |operation| + 29
    ensures key[..|bucket| + 9] == bucket + "/ansible/"
    ensures key[|bucket| + 9..|bucket| + 9 + |configPath|] == configPath
    ensures key[|bucket| + 9 + |configPath|..|bucket| + 24 + |configPath|] == "/ansible-state-"
    ensures key[|bucket| + 24 + |configPath|..|key| - 5] == operation
    ensures key[|key| - 5..] == ".json"
  {
    bucket + "/ansible/" + configPath + "/ansible-state-" + operation + ".json"
  }

  /** `ansible-{mode}.log`. */
  function AnsibleLogFile(mode: string): (name: string)
    ensures |name| == |mode| + 12
    ensures name[..8] == "ansible-" && name[|name| - 4..] == ".log"
    ensures name[8..|name| - 4] == mode
  {
    "ansible-" + mode + ".log"
  }

  /** Different operation types on the same bucket and configuration path never share a
      history object. */
  lemma AnsibleStateKeyInjective(bucket: string, configPath: string, op1: string, op2: string)
    requires AnsibleStateKey(bucket, configPath, op1) == AnsibleStateKey(bucket, configPath, op2)
    ensures op1 == op2
  {
    var k1, k2 := AnsibleStateKey(bucket, configPath, op1), AnsibleStateKey(bucket, configPath, op2);
    var start := |bucket| + |configPath| + 24;
    assert k1[start..|k1| - 5] == op1;
    assert k2[start..|k2| - 5] == op2;
  }

  /** Different configuration paths in the same bucket never share a Terraform state. */
  lemma TerraformStateKeyInjective(bucket: string, cp1: string, cp2: string)
    requires TerraformStateKey(bucket, cp1) == TerraformStateKey(bucket, cp2)
    ensures cp1 == cp2
  {
    var k1, k2 := TerraformStateKey(bucket, cp1), TerraformStateKey(bucket, cp2);
    assert k1[|bucket| + 1..|k1| - 18] == cp1;
    assert k2[|bucket| + 1..|k2| - 18] == cp2;
  }

  /** No Ansible history key is ever a Terraform state key: the one ends in `.json`, the
      other in `.tfstate`. */
  lemma AnsibleKeyIsNotTerraformKey(b1: string, cp1: string, op: string, b2: string, cp2: string)
    ensures AnsibleStateKey(b1, cp1, op) != TerraformStateKey(b2, cp2)
  {
    var a, t := AnsibleStateKey(b1, cp1, op), TerraformStateKey(b2, cp2);
    assert a[|a| - 1] == 'n';
    assert t[|t| - 1] == 'e';
  }

  /** The check and execute runs write distinct log files. */
  lemma AnsibleLogFileInjective(m1: string, m2: string)
    requires AnsibleLogFile(m1) == AnsibleLogFile(m2)
    ensures m1 == m2
  {
    var n1, n2 := AnsibleLogFile(m1), AnsibleLogFile(m2);
    assert n1[8..|n1| - 4] == m1;
    assert n2[8..|n2| - 4] == m2;
  }
}
