/** The ConfigMap version protocol as an abstract machine: an append-only log of versions,
    the marks "current" and "latest" on them, and the ConfigMap itself.  Reconciling is one
    atomic step here; ConfigMapReconciler proves that the controller's reads and writes
    amount to this step. */
module VersionStore {

  newtype byte = x: int | 0 <= x < 256

  datatype Content = Content(data: map<string, string>, binaryData: map<string, seq<byte>>)

  /** An empty annotation map is what Go reads back as nil. */
  datatype ConfigMap = ConfigMap(name: string, annotations: map<string, string>, content: Content)

  datatype Entry = Entry(version: string, content: Content)

  datatype Outcome = Done | Error | Panic

  const VERSION := "currentCustomConfigMapVersion"
  const SNAPSHOT_NAME := "customConfigMap-name"
  const UPDATE_METHOD := "updateMethod"
  const IGNORE_WHEN_SHARED := "ignoreWhenShared"

  /** writes counts the write requests the controller has sent. */
  datatype World = World(cm: ConfigMap, log: seq<Entry>, currents: set<nat>, latests: set<nat>, writes: nat)

  function Lookup(m: map<string, string>, key: string): string { if key in m then m[key] else "" }

  function VersionOf(cm: ConfigMap): string { Lookup(cm.annotations, VERSION) }

  // ---------------------------------------------------------------- names

  predicate NameChar(c: char) { 'a' <= c <= 'z' || '0' <= c <= '9' || c == '-' }

  /** Every maximal run of other characters becomes one "s". */
  function NameValidation(name: string): string {
    if name == "" then ""
    else if NameChar(name[0]) then [name[0]] + NameValidation(name[1..])
    else if |name| > 1 && !NameChar(name[1]) then NameValidation(name[1..])
    else "s" + NameValidation(name[1..])
  }

  predicate AllNameChars(s: string) { forall i :: 0 <= i < |s| ==> NameChar(s[i]) }

  lemma {:induction false} NameValidationFixes(name: string)
    ensures AllNameChars(NameValidation(name))
    ensures NameValidation(name) == name <==> AllNameChars(name)
    ensures AllNameChars(name) <==>
              forall i :: 0 <= i < |name| ==> 'a' <= name[i] <= 'z' || '0' <= name[i] <= '9' || name[i] == '-'
    decreases |name|
  {
    if name != "" {
      NameValidationFixes(name[1..]);
      assert name == [name[0]] + name[1..];
      assert AllNameChars(name) <==> NameChar(name[0]) && AllNameChars(name[1..]);
    }
  }

  /** A run of characters other than small letters, digits and hyphens becomes one "s". */
  lemma RunBecomesOne(a: string, run: string, b: string)
    requires run != ""
    requires forall i :: 0 <= i < |run| ==> !('a' <= run[i] <= 'z' || '0' <= run[i] <= '9' || run[i] == '-')
    requires a != "" ==> NameChar(a[|a| - 1])
    requires b != "" ==> NameChar(b[0])
    ensures NameValidation(a + (run + b)) == NameValidation(a) + "s" + NameValidation(b)
  {
    OneForRun(run, b);
    Prefixed(a, run + b);
  }

  lemma {:induction false} OneForRun(run: string, b: string)
    requires run != "" && (forall i :: 0 <= i < |run| ==> !NameChar(run[i])) && (b != "" ==> NameChar(b[0]))
    ensures NameValidation(run + b) == "s" + NameValidation(b)
    decreases |run|
  {
    assert (run + b)[1..] == run[1..] + b;
    if |run| > 1 { OneForRun(run[1..], b); } else { assert run[1..] + b == b; }
  }

  /** What stands behind a valid character is validated by itself. */
  lemma {:induction false} Prefixed(a: string, c: string)
    requires a != "" ==> NameChar(a[|a| - 1])
    ensures NameValidation(a + c) == NameValidation(a) + NameValidation(c)
    decreases |a|
  {
    if a == "" {
      assert a + c == c;
    } else {
      assert (a + c)[1..] == a[1..] + c && (|a| > 1 ==> (a + c)[1] == a[1]);
      Prefixed(a[1..], c);
    }
  }

  lemma {:induction false} NameValidationSplits(name: string, version: string)
    requires AllNameChars(version)
    ensures NameValidation(name + "-" + version) == NameValidation(name) + "-" + version
    decreases |name|
  {
    var whole := name + "-" + version;
    if name == "" {
      assert whole[1..] == version;
      NameValidationFixes(version);
    } else {
      assert whole[1..] == name[1..] + "-" + version;
      NameValidationSplits(name[1..], version);
      assert |name| > 1 ==> whole[1] == name[1];
      assert |name| == 1 ==> whole[1] == '-';
    }
  }

  /** The object name a version is stored under... */
  function StoredName(name: string, version: string): string { NameValidation(name + "-" + version) }

  /** ...and the one a rollback looks for. */
  function SoughtName(name: string, version: string): string { name + "-" + version }

  /** Different versions are stored apart. */
  lemma StoredApart(name: string, version: string, other: string)
    requires AllNameChars(version) && AllNameChars(other)
    ensures StoredName(name, version) == StoredName(name, other) <==> version == other
  {
    NameValidationSplits(name, version);
    NameValidationSplits(name, other);
    var prefix := NameValidation(name) + "-";
    assert (prefix + version)[|prefix|..] == version && (prefix + other)[|prefix|..] == other;
  }

  /** A rollback to v finds the snapshot of `version` exactly when v is that version and the
      ConfigMap's name has no characters that NameValidation replaces (a dot, which
      Kubernetes allows, is one). */
  lemma RollbackFindsStored(name: string, v: string, version: string)
    requires AllNameChars(version)
    ensures SoughtName(name, v) == StoredName(name, version) <==> v == version && AllNameChars(name)
  {
    NameValidationSplits(name, version);
    NameValidationFixes(name);
    NameValidationFixes(name + "-" + version);
    var prefix := name + "-";
    if SoughtName(name, v) == StoredName(name, version) {
      assert forall i :: 0 <= i < |name| ==> name[i] == SoughtName(name, v)[i];
      assert AllNameChars(name);
      assert (prefix + v)[|prefix|..] == v && (prefix + version)[|prefix|..] == version;
    }
  }

  predicate NoHyphen(s: string) { forall i :: 0 <= i < |s| ==> s[i] != '-' }

  /** A rollback of one ConfigMap hits a snapshot of another one exactly if the other's name,
      as it is stored, is this name, or is this name with more behind a hyphen and the
      annotation spells the rest.  Versions have no hyphens. */
  lemma RollbackHitsOther(name: string, v: string, other: string, version: string)
    requires AllNameChars(version) && NoHyphen(version)
    ensures SoughtName(name, v) == StoredName(other, version) <==>
              || (NameValidation(other) == name && v == version)
              || (exists rest :: NameValidation(other) == name + "-" + rest && v == rest + "-" + version)
  {
    NameValidationSplits(other, version);
    LastHyphen(name, v, NameValidation(other), version);
  }

  lemma LastHyphen(name: string, v: string, stored: string, version: string)
    requires NoHyphen(version)
    ensures name + "-" + v == stored + "-" + version <==>
              || (stored == name && v == version)
              || (exists rest :: stored == name + "-" + rest && v == rest + "-" + version)
  {
    var sought, whole := name + "-" + v, stored + "-" + version;
    if sought == whole {
      assert sought[|name|] == '-' && forall k :: |stored| < k < |whole| ==> whole[k] == version[k - |stored| - 1];
      assert |name| <= |stored|;
      assert name == sought[..|name|] && v == sought[|name| + 1..];
      if |name| < |stored| {
        assert stored[..|name|] == whole[..|name|] && stored[|name|] == whole[|name|];
        var rest := stored[|name| + 1..];
        assert stored == name + "-" + rest && rest + "-" + version == whole[|name| + 1..];
      }
    }
    forall rest | stored == name + "-" + rest && v == rest + "-" + version ensures sought == whole {
      assert whole == name + ("-" + rest + "-" + version) && sought == name + ("-" + v);
    }
  }

  // ---------------------------------------------------------------- reconcile, abstractly

  function Annotated(cm: ConfigMap, version: string): ConfigMap {
    cm.(annotations := cm.annotations[VERSION := version][SNAPSHOT_NAME := StoredName(cm.name, version)]
                                     [UPDATE_METHOD := IGNORE_WHEN_SHARED])
  }

  /** What the environment contributes to one reconcile: the random version, how many times
      another writer gets between listing and updating the latest snapshot, whether the server
      refuses to create the new snapshot, and what stands under the name a rollback looks for
      if that is not a version of this ConfigMap. */
  datatype Env = Env(version: string, interference: nat, createFails: bool, foreign: Foreign)

  /** A snapshot of something else, with labels or without any. */
  datatype Foreign = Nothing | Other(content: Content, labelled: bool)

  /** CreateNewCCM: the current mark goes, then the latest mark (after at most six tries),
      then a new snapshot carries both and the ConfigMap is annotated. */
  function CommitNew(w: World, e: Env): (World, Outcome)
  {
    if w.latests == {} then
      (w.(currents := {}, writes := w.writes + 1), Panic)
    else
      var removed := e.interference <= 5;
      var latests := if removed then {} else w.latests;
      var writes := w.writes + 1 + if removed then 1 else 0;
      if e.createFails then
        if w.currents == w.latests then
          (w.(currents := {}, latests := latests, writes := writes), Error)
        else
          (w.(writes := writes + if removed then 2 else 1), Error)
      else
        var w' := w.(log := w.log + [Entry(e.version, w.cm.content)], currents := {|w.log|},
                     latests := latests + {|w.log|}, writes := writes + 1);
        if w.cm.annotations == map[] then (w', Panic)
        else (w'.(cm := Annotated(w.cm, e.version), writes := w'.writes + 1), Done)
  }

  predicate HasVersion(log: seq<Entry>, v: string) { exists i :: 0 <= i < |log| && log[i].version == v }

  function IndexOf(log: seq<Entry>, v: string): (i: nat)
    requires HasVersion(log, v)
    ensures i < |log| && log[i].version == v
  {
    if log[0].version == v then 0 else IndexOf(log[1..], v) + 1
  }

  /** A rollback that finds no version of this ConfigMap takes what it finds: the content is
      copied, the mark goes to the foreign snapshot and is lost here.  Without labels there
      is no map to write the mark into. */
  function RollbackElsewhere(w: World, e: Env): (World, Outcome) {
    match e.foreign
    case Nothing => (w, Error)
    case Other(content, labelled) =>
      var w' := w.(cm := w.cm.(content := content), writes := w.writes + 1);
      if labelled then (w'.(currents := {}, writes := w.writes + 3), Done) else (w', Panic)
  }

  function Reconciled(w: World, e: Env): (World, Outcome)
    requires Tracked(w)
  {
    var v := VersionOf(w.cm);
    if w.currents == {} then
      if v != "" then (w, Done)
      else if e.createFails then (w, Error)
      else (w.(cm := Annotated(w.cm, e.version), log := w.log + [Entry(e.version, w.cm.content)],
               currents := {|w.log|}, latests := w.latests + {|w.log|}, writes := w.writes + 2), Done)
    else
      var c := TheOne(w.currents);
      if v == "" then
        if w.cm.content != w.log[c].content then CommitNew(w, e)
        else (w.(cm := Annotated(w.cm, w.log[c].version), writes := w.writes + 1), Done)
      else if v != w.log[c].version then
        if HasVersion(w.log, v) && AllNameChars(w.cm.name) then
          (w.(cm := w.cm.(content := w.log[IndexOf(w.log, v)].content), currents := {IndexOf(w.log, v)},
              writes := w.writes + 3), Done)
        else RollbackElsewhere(w, e)
      else if w.cm.content != w.log[c].content then CommitNew(w, e)
      else (w, Done)
  }

  /** Whether the reconcile copies from a snapshot of something else. */
  predicate TakesForeign(w: World, e: Env)
    requires Tracked(w)
  {
    && e.foreign.Other? && w.currents != {}
    && VersionOf(w.cm) !in {"", w.log[TheOne(w.currents)].version}
    && !(HasVersion(w.log, VersionOf(w.cm)) && AllNameChars(w.cm.name))
  }

  predicate AtMostOne(s: set<nat>) { forall i, j :: i in s && j in s ==> i == j }

  function TheOne(s: set<nat>): (i: nat)
    requires s != {} && AtMostOne(s)
    ensures s == {i}
  {
    var i :| i in s; i
  }

  /** Distinct well-formed versions; the marks are on versions. */
  predicate WellVersioned(w: World) {
    && (forall i :: 0 <= i < |w.log| ==> w.log[i].version != "" && AllNameChars(w.log[i].version))
    && (forall i, j :: 0 <= i < j < |w.log| ==> w.log[i].version != w.log[j].version)
    && (forall i :: i in w.currents ==> i < |w.log|)
    && (forall i :: i in w.latests ==> i < |w.log|)
  }

  /** The states the controller can tell apart: at most one current and at most one latest. */
  predicate Tracked(w: World) {
    WellVersioned(w) && AtMostOne(w.currents) && AtMostOne(w.latests)
  }

  predicate Fresh(w: World, e: Env) {
    e.version != "" && AllNameChars(e.version) && !HasVersion(w.log, e.version)
  }
}
