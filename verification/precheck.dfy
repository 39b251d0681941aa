/** `ansible_precheck.py`: before an Ansible run on OCI, every ADB target the manifest
    declares must have host variables in the inventory that was built for it. */
module Precheck {
  import opened Wrappers
  import opened Documents
  import InventoryBuilder
  import Sequences

  datatype PrecheckOutcome =
    | Skipped                       // a cloud other than `oci`: nothing is checked
    | Passed(validated: nat)        // every declared target is in the inventory
    | Failed(missing: seq<Key>)     // the declared names absent from the inventory, in order

  /** `inventory.get('_meta', {}).get('hostvars', {})`. */
  function HostvarsOf(inv: InventoryDoc): map<Key, HostVars> {
    match inv.meta
    case None => map[]
    case Some(meta) => meta.hostvars.GetOr(map[])
  }

  /** The loop that appends every declared name not found in `present`, duplicates included. */
  function MissingTargets(ts: seq<AdbTarget>, present: set<Key>): seq<Key>
    decreases |ts|
  {
    if |ts| == 0 then []
    else
      var t := ts[|ts| - 1];
      MissingTargets(ts[..|ts| - 1], present) + (if t.displayName in present then [] else [t.displayName])
  }

  /** A name is reported exactly when some target declares it and it is not present. */
  lemma {:induction false} MissingSpec(ts: seq<AdbTarget>, present: set<Key>)
    decreases |ts|
    ensures forall k :: k in MissingTargets(ts, present) <==>
              k !in present && exists i :: 0 <= i < |ts| && ts[i].displayName == k
  {
    if |ts| > 0 {
      var n := |ts| - 1;
      MissingSpec(ts[..n], present);
      forall k ensures k in MissingTargets(ts, present) <==>
                      k !in present && exists i :: 0 <= i < |ts| && ts[i].displayName == k
      {
        if k !in present && exists i :: 0 <= i < |ts| && ts[i].displayName == k {
          var i :| 0 <= i < |ts| && ts[i].displayName == k;
          if i < n {
            assert ts[..n][i] == ts[i];
          }
        }
        if k in MissingTargets(ts[..n], present) {
          var i :| 0 <= i < n && ts[..n][i].displayName == k;
          assert ts[i] == ts[..n][i];
        }
      }
    }
  }

  /** Checking `a + b` reports `a`'s missing names, then `b`'s. */
  lemma {:induction false} MissingAppend(a: seq<AdbTarget>, b: seq<AdbTarget>, present: set<Key>)
    decreases |b|
    ensures MissingTargets(a + b, present) == MissingTargets(a, present) + MissingTargets(b, present)
  {
    if |b| == 0 {
      assert a + b == a;
    } else {
      var init := b[..|b| - 1];
      var last := if b[|b| - 1].displayName in present then [] else [b[|b| - 1].displayName];
      Sequences.DropLastAppend(a, b);
      MissingAppend(a, init, present);
      Sequences.Regroup(MissingTargets(a, present), MissingTargets(init, present), last);
    }
  }

  /** Against an empty inventory every declared name is reported, in order. */
  lemma {:induction false} MissingAll(ts: seq<AdbTarget>)
    decreases |ts|
    ensures MissingTargets(ts, {}) == AdbNames(ts)
  {
    if |ts| > 0 {
      var n := |ts| - 1;
      MissingAll(ts[..n]);
      assert AdbNames(ts) == AdbNames(ts[..n]) + [ts[n].displayName];
    }
  }

  /** Nothing is reported when every declared name is present. */
  lemma {:induction false} MissingNone(ts: seq<AdbTarget>, present: set<Key>)
    requires forall j :: 0 <= j < |ts| ==> ts[j].displayName in present
    decreases |ts|
    ensures MissingTargets(ts, present) == []
  {
    if |ts| > 0 {
      var n := |ts| - 1;
      assert forall j :: 0 <= j < n ==> ts[..n][j] == ts[j];
      MissingNone(ts[..n], present);
    }
  }

  /** The first name reported is the first declared name that is not present. */
  lemma MissingHead(ts: seq<AdbTarget>, present: set<Key>, i: nat)
    requires i < |ts| && ts[i].displayName !in present
    requires forall j :: 0 <= j < i ==> ts[j].displayName in present
    ensures MissingTargets(ts, present) != [] && MissingTargets(ts, present)[0] == ts[i].displayName
  {
    MissingNone(ts[..i], present);
    var rest := ts[i + 1..];
    assert ts[i..] == [ts[i]] + rest;
    MissingAppend([ts[i]], rest, present);
    assert [ts[i]][..0] == [];
    assert MissingTargets([ts[i]], present) == [ts[i].displayName];
    assert ts == ts[..i] + ts[i..];
    MissingAppend(ts[..i], ts[i..], present);
  }

  /** The check for a cloud and a manifest against an inventory document. Only `oci` is
      checked; it passes, counting the declared targets, exactly when every declared name
      has host variables, and otherwise reports every declared name that has none. */
  function Precheck(cloud: string, manifest: Manifest, inv: InventoryDoc): (r: PrecheckOutcome)
    ensures r.Skipped? <==> cloud != "oci"
    ensures r.Passed? <==>
              cloud == "oci" && forall i :: 0 <= i < |AdbTargets(manifest)| ==> AdbTargets(manifest)[i].displayName in HostvarsOf(inv)
    ensures r.Passed? ==> r.validated == |AdbTargets(manifest)|
    ensures r.Failed? ==> r.missing != []
    ensures r.Failed? ==> forall k :: k in r.missing <==>
              k !in HostvarsOf(inv) && exists i :: 0 <= i < |AdbTargets(manifest)| && AdbTargets(manifest)[i].displayName == k
  {
    var ts := AdbTargets(manifest);
    var missing := MissingTargets(ts, HostvarsOf(inv).Keys);
    MissingSpec(ts, HostvarsOf(inv).Keys);
    if cloud != "oci" then Skipped
    else if missing != [] then
      assert missing[0] in missing;
      Failed(missing)
    else
      Passed(|ts|)
  }

  /** An inventory the builder produced, saved and read back, passes the check for the same
      manifest exactly when every declared name is a string; otherwise exactly the None
      name is reported, because the saved file holds it as `"null"`. */
  lemma {:induction false} BuiltInventoryPasses(manifest: Manifest, adbMap: map<Key, InventoryBuilder.AdbInfo>)
    requires InventoryBuilder.BuildAnsibleInventory(manifest, adbMap).Success?
    ensures var r := Precheck("oci", manifest, ToDocument(InventoryBuilder.BuildAnsibleInventory(manifest, adbMap).value));
            r.Passed? <==> forall i :: 0 <= i < |AdbTargets(manifest)| ==> AdbTargets(manifest)[i].displayName.Some?
    ensures var r := Precheck("oci", manifest, ToDocument(InventoryBuilder.BuildAnsibleInventory(manifest, adbMap).value));
            r.Passed? ==> r == Passed(|AdbTargets(manifest)|)
    ensures var r := Precheck("oci", manifest, ToDocument(InventoryBuilder.BuildAnsibleInventory(manifest, adbMap).value));
            r.Failed? ==> forall k :: k in r.missing <==> k.None?
  {
    var ts := AdbTargets(manifest);
    var inv := InventoryBuilder.BuildAnsibleInventory(manifest, adbMap).value;
    var saved := HostvarsOf(ToDocument(inv));
    assert saved == SavedHostvars(inv.hostvars);
    assert forall i :: 0 <= i < |ts| ==> ts[i].displayName in InventoryBuilder.NameSet(ts);
    assert forall i :: 0 <= i < |ts| ==> (ts[i].displayName in saved <==> ts[i].displayName.Some?);
  }

  /** The builder and the check agree on which manifests are unsatisfiable: the build fails
      exactly when the check would report a name, and it names the first one reported. */
  lemma BuildFailsAtFirstMissing(manifest: Manifest, adbMap: map<Key, InventoryBuilder.AdbInfo>)
    ensures var r := InventoryBuilder.BuildAnsibleInventory(manifest, adbMap);
            var missing := MissingTargets(AdbTargets(manifest), adbMap.Keys);
            && (r.Failure? <==> missing != [])
            && (r.Failure? ==> r.error.name == missing[0])
  {
    var ts := AdbTargets(manifest);
    var r := InventoryBuilder.BuildAnsibleInventory(manifest, adbMap);
    if r.Failure? {
      var i :| && 0 <= i < |ts| && ts[i].displayName !in adbMap
               && (forall j :: 0 <= j < i ==> ts[j].displayName in adbMap)
               && r.error == InventoryBuilder.TargetNotFound(ts[i].displayName, adbMap.Keys);
      MissingHead(ts, adbMap.Keys, i);
    } else {
      MissingNone(ts, adbMap.Keys);
    }
  }

  /** An inventory without `_meta` or without `hostvars` fails every declared target. */
  lemma MissingHostvarsFailsAll(manifest: Manifest, inv: InventoryDoc)
    requires inv.meta.None? || inv.meta.value.hostvars.None?
    requires AdbTargets(manifest) != []
    ensures Precheck("oci", manifest, inv) == Failed(AdbNames(AdbTargets(manifest)))
  {
    assert HostvarsOf(inv).Keys == {};
    MissingAll(AdbTargets(manifest));
    assert AdbNames(AdbTargets(manifest)) != [];
  }
}
