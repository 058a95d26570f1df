/** Rolling a Secret back: CopyCSToSecret makes the Secret and its snapshot share one
    annotation map, writes five managed keys into it, saves the Secret, takes the keys out
    again and saves the snapshot.  Maps are heap objects here, so that the sharing is real. */
module SecretRollback {

  import VersionStore

  type Data = map<string, seq<VersionStore.byte>>
  type Annotations = map<string, string>

  const VERSION := "currentCustomSecretVersion"
  const SNAPSHOT_NAME := "customSecret-name"
  const UPDATE_METHOD := "updateMethod"
  const DEPLOYMENTS := "deployments"
  const STATEFULSETS := "statefulsets"
  const MANAGED: set<string> := {VERSION, SNAPSHOT_NAME, UPDATE_METHOD, DEPLOYMENTS, STATEFULSETS}

  /** Objects as the server stores them; an empty map and no map are the same there. */
  datatype Secret = Secret(name: string, kind: string, data: Data, annotations: Annotations)
  datatype Spec = Spec(data: Data, kind: string, secretName: string, annotations: Annotations)
  datatype CustomSecret = CustomSecret(name: string, labels: map<string, string>, version: string, spec: Spec)

  type Outcome = VersionStore.Outcome

  function Lookup(m: map<string, string>, key: string): string { VersionStore.Lookup(m, key) }

  // ---------------------------------------------------------------- decoded objects

  /** A Go map: shared by everyone who holds it. */
  class GoMap {
    var m: map<string, string>

    constructor (m: map<string, string>)
      ensures this.m == m
    {
      this.m := m;
    }

    /** The five managed keys are written into this map, four of them from the Secret's. */
    method AddManaged(from: GoMap, name: string)
      requires from != this
      modifies this
      ensures m == WithManaged(old(m), from.m, name)
    {
      m := m[DEPLOYMENTS := Lookup(from.m, DEPLOYMENTS)];
      m := m[STATEFULSETS := Lookup(from.m, STATEFULSETS)];
      m := m[UPDATE_METHOD := Lookup(from.m, UPDATE_METHOD)];
      m := m[VERSION := Lookup(from.m, VERSION)];
      m := m[SNAPSHOT_NAME := name];
    }

    /** The five managed keys are taken out again. */
    method RemoveManaged()
      modifies this
      ensures m == old(m) - MANAGED
    {
      ghost var all := m;
      m := m - {VERSION};
      m := m - {SNAPSHOT_NAME};
      m := m - {UPDATE_METHOD};
      m := m - {DEPLOYMENTS};
      m := m - {STATEFULSETS};
      RemovedOneByOne(all, VERSION, SNAPSHOT_NAME, UPDATE_METHOD, DEPLOYMENTS, STATEFULSETS);
    }
  }

  lemma RemovedOneByOne(m: Annotations, a: string, b: string, c: string, d: string, e: string)
    ensures m - {a} - {b} - {c} - {d} - {e} == m - {a, b, c, d, e}
  {
  }

  /** `own` with the five managed keys, four of them as in `annotations`. */
  function WithManaged(own: Annotations, annotations: Annotations, name: string): Annotations {
    own[DEPLOYMENTS := Lookup(annotations, DEPLOYMENTS)]
       [STATEFULSETS := Lookup(annotations, STATEFULSETS)]
       [UPDATE_METHOD := Lookup(annotations, UPDATE_METHOD)]
       [VERSION := Lookup(annotations, VERSION)]
       [SNAPSHOT_NAME := name]
  }

  /** Decoding an omitted map leaves nil. */
  method Decode(m: map<string, string>) returns (g: GoMap?)
    ensures (g == null) == (m == map[]) && (g != null ==> fresh(g) && g.m == m)
  {
    if m == map[] {
      g := null;
    } else {
      g := new GoMap(m);
    }
  }

  class SecretObject {
    const name: string
    const kind: string
    var data: Data
    var annotations: GoMap?

    constructor (s: Secret, annotations: GoMap?)
      ensures name == s.name && kind == s.kind && data == s.data && this.annotations == annotations
      ensures (if annotations == null then map[] else annotations.m) == s.annotations ==> Encoded() == s
    {
      name, kind, data, this.annotations := s.name, s.kind, s.data, annotations;
    }

    function Encoded(): Secret
      reads this, annotations
    {
      Secret(name, kind, data, if annotations == null then map[] else annotations.m)
    }
  }

  class Server {
    var secrets: map<string, Secret>
    var snapshots: map<string, CustomSecret>

    /** CopyCSToSecret on the fetched Secret. */
    method CopyCSToSecret(secret: SecretObject) returns (outcome: Outcome)
      requires secret.name in secrets && secret.annotations != null
      modifies this, secret, secret.annotations
      ensures var stored := Stored(old(secrets), old(snapshots));
              (Stored(secrets, snapshots), outcome) == Copied(stored, old(secret.Encoded()))
    {
      var key := secret.name + "-" + Lookup(secret.annotations.m, VERSION);
      if key !in snapshots {
        return VersionStore.Error;
      }
      var cs := snapshots[key];
      var shared := Decode(cs.spec.annotations);
      secret.data := cs.spec.data;
      if shared == null {
        return VersionStore.Panic;
      }
      shared.AddManaged(secret.annotations, cs.name);
      secret.annotations := shared;
      secrets := secrets[secret.name := secret.Encoded()];
      if cs.labels == map[] {
        return VersionStore.Panic;
      }
      shared.RemoveManaged();
      assert shared.m == cs.spec.annotations - MANAGED;
      snapshots := snapshots[cs.name := cs.(labels := cs.labels["current" := "true"],
                                            spec := cs.spec.(annotations := shared.m))];
      return VersionStore.Done;
    }
  }

  // ---------------------------------------------------------------- what is stored

  datatype Stored = Stored(secrets: map<string, Secret>, snapshots: map<string, CustomSecret>)

  /** CopyCSToSecret for the Secret s: an error without a snapshot; a snapshot that has no
      annotations to write into lets it panic before anything is stored, one that has no labels
      after the Secret is. */
  function Copied(stored: Stored, s: Secret): (Stored, Outcome) {
    var key := VersionStore.SoughtName(s.name, Lookup(s.annotations, VERSION));
    if key !in stored.snapshots then (stored, VersionStore.Error)
    else
      var cs := stored.snapshots[key];
      if cs.spec.annotations == map[] then (stored, VersionStore.Panic)
      else
        var secrets := stored.secrets[s.name := RolledBack(s, cs)];
        if cs.labels == map[] then (stored.(secrets := secrets), VersionStore.Panic)
        else (Stored(secrets, stored.snapshots[cs.name := Marked(cs)]), VersionStore.Done)
  }

  /** The Secret after a rollback. */
  function RolledBack(s: Secret, cs: CustomSecret): Secret {
    s.(data := cs.spec.data,
       annotations := WithManaged(cs.spec.annotations, s.annotations, cs.name))
  }

  /** The snapshot after a rollback to it. */
  function Marked(cs: CustomSecret): CustomSecret {
    cs.(labels := cs.labels["current" := "true"], spec := cs.spec.(annotations := cs.spec.annotations - MANAGED))
  }

  /** newCustomSecret: the data (as read back, there is no separate string data), the type,
      and the annotations that are not the controller's own. */
  function NewCustomSecret(s: Secret, version: string, name: string): CustomSecret {
    CustomSecret(name, map["name" := s.name, "latest" := "true", "current" := "true"], version,
                 Spec(s.data, s.kind, s.name, s.annotations - MANAGED))
  }

  /** UpdateSecret's test for an edit: annotations only matter if the snapshot has any. */
  predicate NeedsNewVersion(s: Secret, cs: CustomSecret) {
    || s.data != cs.spec.data
    || s.kind != cs.spec.kind
    || (cs.spec.annotations != map[] && s.annotations - MANAGED != cs.spec.annotations)
  }

  /** The specification of the snapshot rolled back to survives exactly if none of the
      controller's keys were in it or it has no labels... */
  lemma SnapshotSurvives(stored: Stored, s: Secret, key: string)
    requires key == VersionStore.SoughtName(s.name, Lookup(s.annotations, VERSION))
    requires key in stored.snapshots && stored.snapshots[key].name == key
    ensures var cs := stored.snapshots[key];
            var after := Copied(stored, s).0.snapshots;
            key in after && (after[key].spec == cs.spec <==> cs.spec.annotations.Keys !! MANAGED || cs.labels == map[])
  {
    var cs := stored.snapshots[key];
    if cs.spec.annotations.Keys !! MANAGED {
      assert cs.spec.annotations - MANAGED == cs.spec.annotations;
    } else {
      var k :| k in cs.spec.annotations.Keys && k in MANAGED;
      assert k !in cs.spec.annotations - MANAGED;
    }
  }

  /** ...which holds for every snapshot the controller makes. */
  lemma MadeWithoutManaged(s: Secret, version: string, name: string)
    ensures NewCustomSecret(s, version, name).spec.annotations.Keys !! MANAGED
  {
  }

  /** The Secret's annotations become the snapshot's plus exactly the five managed keys. */
  lemma RollbackAnnotations(s: Secret, cs: CustomSecret)
    requires cs.spec.annotations.Keys !! MANAGED
    ensures var r := RolledBack(s, cs).annotations;
            && r - MANAGED == cs.spec.annotations
            && r.Keys == cs.spec.annotations.Keys + MANAGED
            && "customSecret-name" in r && r["customSecret-name"] == cs.name
            && (forall k :: k in {"currentCustomSecretVersion", "updateMethod", "deployments", "statefulsets"} ==>
                  k in r && r[k] == Lookup(s.annotations, k))
  {
    var r := RolledBack(s, cs).annotations;
    forall k | k in (r - MANAGED) ensures k in cs.spec.annotations && r[k] == cs.spec.annotations[k] {}
    assert r - MANAGED == cs.spec.annotations;
  }

  /** The snapshot of a recorded Secret, wherever the marks are by now. */
  predicate Records(cs: CustomSecret, recorded: Secret, version: string) {
    && cs.name == VersionStore.StoredName(recorded.name, version) && cs.version == version && "name" in cs.labels
    && cs.spec == Spec(recorded.data, recorded.kind, recorded.name, recorded.annotations - MANAGED)
  }

  /** A snapshot just made is one of the Secret it was made of, and carries both marks. */
  lemma MadeIsRecord(s: Secret, version: string)
    ensures var cs := NewCustomSecret(s, version, VersionStore.StoredName(s.name, version));
            && Records(cs, s, version)
            && cs.name == VersionStore.NameValidation(s.name + "-" + version) && cs.version == version
            && cs.labels == map["name" := s.name, "latest" := "true", "current" := "true"]
            && cs.spec.data == s.data && cs.spec.kind == s.kind && cs.spec.secretName == s.name
            && (forall k :: k in cs.spec.annotations <==>
                  k in s.annotations && k !in {"currentCustomSecretVersion", "customSecret-name", "updateMethod",
                                               "deployments", "statefulsets"})
            && (forall k :: k in cs.spec.annotations ==> cs.spec.annotations[k] == s.annotations[k])
  {
    hide VersionStore.NameValidation;
  }

  /** Ask for a recorded version, whatever has become of the Secret and of the snapshot's marks.  Under a name that
      NameValidation changes the snapshot is not found.  A Secret recorded without annotations
      of its own makes the controller panic and stays as it was edited.  Any other gets its
      data and own annotations back, the snapshot is what it was, and the controller sees
      nothing left to do exactly if the type is the recorded one: that is not rolled back. */
  lemma RollBackRecorded(stored: Stored, recorded: Secret, version: string, edited: Secret)
    requires VersionStore.AllNameChars(version)
    requires edited.name == recorded.name && Lookup(edited.annotations, "currentCustomSecretVersion") == version
    requires var key := VersionStore.StoredName(recorded.name, version);
             key in stored.snapshots && Records(stored.snapshots[key], recorded, version)
    ensures var key := VersionStore.StoredName(recorded.name, version);
            var sought := VersionStore.SoughtName(recorded.name, version);
            var (after, outcome) := Copied(stored, edited);
            var own := recorded.annotations - MANAGED;
            && (sought == key <==> VersionStore.AllNameChars(recorded.name))
            && (outcome.Error? <==> sought !in stored.snapshots)
            && (sought == key ==> (outcome.Panic? <==> own == map[]) && (outcome.Done? <==> own != map[]))
            && (outcome.Error? || (sought == key && own == map[]) ==> after == stored)
            && (sought == key && own != map[] ==>
                  && edited.name in after.secrets && key in after.snapshots
                  && var (back, cs) := (after.secrets[edited.name], after.snapshots[key]);
                  && back.data == recorded.data && back.annotations - MANAGED == own && back.kind == edited.kind
                  && Records(cs, recorded, version)
                  && (NeedsNewVersion(back, cs) <==> edited.kind != recorded.kind)
                  && (forall k :: k in stored.secrets && k != edited.name ==>
                        k in after.secrets && after.secrets[k] == stored.secrets[k])
                  && (forall k :: k in stored.snapshots && k != key ==>
                        k in after.snapshots && after.snapshots[k] == stored.snapshots[k]))
  {
    hide VersionStore.NameValidation;
    var key := VersionStore.StoredName(recorded.name, version);
    VersionStore.RollbackFindsStored(recorded.name, version, version);
    if VersionStore.SoughtName(recorded.name, version) == key {
      var cs := stored.snapshots[key];
      MadeWithoutManaged(recorded, version, key);
      SnapshotSurvives(stored, edited, key);
      RollbackAnnotations(edited, cs);
    }
  }

  /** Record, edit at will, roll back: the snapshot is the one just made. */
  lemma RecordThenRollBack(stored: Stored, recorded: Secret, version: string, edited: Secret)
    requires VersionStore.AllNameChars(version) && VersionStore.AllNameChars(recorded.name)
    requires edited.name == recorded.name && Lookup(edited.annotations, "currentCustomSecretVersion") == version
    ensures var key := VersionStore.StoredName(recorded.name, version);
            var made := stored.(snapshots := stored.snapshots[key := NewCustomSecret(recorded, version, key)]);
            var (after, outcome) := Copied(made, edited);
            var own := recorded.annotations - MANAGED;
            && (own == map[] ==> outcome.Panic? && after == made)
            && (own != map[] ==>
                  && outcome.Done? && edited.name in after.secrets && key in after.snapshots
                  && after.secrets[edited.name].data == recorded.data
                  && after.secrets[edited.name].annotations - MANAGED == own
                  && after.snapshots[key] == NewCustomSecret(recorded, version, key))
  {
    hide VersionStore.NameValidation;
    var key := VersionStore.StoredName(recorded.name, version);
    var made := stored.(snapshots := stored.snapshots[key := NewCustomSecret(recorded, version, key)]);
    MadeIsRecord(recorded, version);
    RollBackRecorded(made, recorded, version, edited);
    VersionStore.RollbackFindsStored(recorded.name, version, version);
    var cs := made.snapshots[key];
    if cs.spec.annotations != map[] { assert Marked(cs).labels == cs.labels; }
  }

  /** An edit of the data alone, or of the type alone, is always noticed. */
  lemma DataEditNoticed(recorded: Secret, version: string, name: string, data: Data, kind: string)
    ensures var cs := NewCustomSecret(recorded, version, name);
            && (NeedsNewVersion(recorded.(data := data), cs) <==> data != recorded.data)
            && (NeedsNewVersion(recorded.(kind := kind), cs) <==> kind != recorded.kind)
  {
  }

  /** An edit of annotations alone is noticed exactly if the snapshot has annotations and they
      differ; the first annotation a Secret gets is not versioned. */
  lemma AnnotationEditNoticed(recorded: Secret, version: string, name: string, annotations: Annotations)
    ensures var cs := NewCustomSecret(recorded, version, name);
            && (NeedsNewVersion(recorded.(annotations := annotations), cs) <==>
                recorded.annotations - MANAGED != map[] && annotations - MANAGED != recorded.annotations - MANAGED)
  {
  }
}
