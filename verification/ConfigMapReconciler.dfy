/** The ConfigMap controller against an API server: every list, get, update and create is a
    separate request, snapshots carry a resource version, and an update of a stale copy is
    refused.  Reconcile is proved to amount to the one-step machine of VersionStore. */
module ConfigMapReconciler {
  import opened VersionStore

  datatype Spec = Spec(content: Content, configMapName: string)

  datatype CustomConfigMap = CustomConfigMap(
    name: string, labels: map<string, string>, annotations: map<string, string>, spec: Spec, resourceVersion: nat)

  const NAME := "name"
  const CURRENT := "current"
  const LATEST := "latest"
  const CCM_VERSION := "customConfigMapVersion"

  type Store = map<string, CustomConfigMap>

  // ---------------------------------------------------------------- abstraction

  function Labels(name: string, current: bool, latest: bool): map<string, string> {
    var m := map[NAME := name];
    var m' := if latest then m[LATEST := "true"] else m;
    if current then m'[CURRENT := "true"] else m'
  }

  /** The stored object of one version, whatever its resource version. */
  predicate Stores(o: CustomConfigMap, name: string, entry: Entry, current: bool, latest: bool) {
    && o.name == StoredName(name, entry.version)
    && o.labels == Labels(name, current, latest)
    && o.annotations == map[CCM_VERSION := entry.version]
    && o.spec == Spec(entry.content, name)
  }

  predicate Owned(o: CustomConfigMap, name: string) { Lookup(o.labels, NAME) == name }

  /** The snapshots of one ConfigMap in the store are exactly the versions of the log, marked
      as the two sets say. */
  ghost predicate Holds(store: Store, w: World) {
    && (forall k :: k in store ==> store[k].name == k)
    && (forall i :: 0 <= i < |w.log| ==>
          StoredName(w.cm.name, w.log[i].version) in store
          && Stores(store[StoredName(w.cm.name, w.log[i].version)], w.cm.name, w.log[i],
                    i in w.currents, i in w.latests))
    && (forall k :: k in store && Owned(store[k], w.cm.name) ==>
          exists i :: 0 <= i < |w.log| && k == StoredName(w.cm.name, w.log[i].version))
  }

  ghost function KeyOf(w: World, i: nat): string
    requires i < |w.log|
  {
    StoredName(w.cm.name, w.log[i].version)
  }

  lemma KeysApart(w: World, i: nat, j: nat)
    requires WellVersioned(w) && i < |w.log| && j < |w.log|
    ensures KeyOf(w, i) == KeyOf(w, j) <==> i == j
  {
    StoredApart(w.cm.name, w.log[i].version, w.log[j].version);
  }

  /** Rewriting the marks of one version. */
  lemma Remarked(store: Store, w: World, i: nat, o: CustomConfigMap, currents: set<nat>, latests: set<nat>)
    requires Holds(store, w) && WellVersioned(w) && i < |w.log|
    requires Stores(o, w.cm.name, w.log[i], i in currents, i in latests)
    requires forall j :: 0 <= j < |w.log| && j != i ==>
               (j in currents <==> j in w.currents) && (j in latests <==> j in w.latests)
    ensures Holds(store[KeyOf(w, i) := o], w.(currents := currents, latests := latests))
  {
    hide StoredName, Labels;
    var store' := store[KeyOf(w, i) := o];
    forall j | 0 <= j < |w.log| && j != i
      ensures KeyOf(w, j) in store' && Stores(store'[KeyOf(w, j)], w.cm.name, w.log[j], j in currents, j in latests)
    {
      KeysApart(w, i, j);
    }
    forall k | k in store' && Owned(store'[k], w.cm.name)
      ensures exists j :: 0 <= j < |w.log| && k == StoredName(w.cm.name, w.log[j].version)
    {
      if k == KeyOf(w, i) { assert 0 <= i < |w.log| && k == StoredName(w.cm.name, w.log[i].version); }
    }
  }

  /** Storing a new version with both marks. */
  lemma Appended(store: Store, w: World, entry: Entry, o: CustomConfigMap, currents: set<nat>, latests: set<nat>)
    requires Holds(store, w) && WellVersioned(w)
    requires AllNameChars(entry.version) && !HasVersion(w.log, entry.version)
    requires Stores(o, w.cm.name, entry, true, true)
    requires currents == w.currents + {|w.log|} && latests == w.latests + {|w.log|}
    ensures Holds(store[StoredName(w.cm.name, entry.version) := o],
                  w.(log := w.log + [entry], currents := currents, latests := latests))
  {
    hide StoredName, Labels;
    var key := StoredName(w.cm.name, entry.version);
    var store' := store[key := o];
    var w' := w.(log := w.log + [entry], currents := currents, latests := latests);
    forall j | 0 <= j < |w.log|
      ensures KeyOf(w, j) in store' && Stores(store'[KeyOf(w, j)], w.cm.name, w.log[j], j in currents, j in latests)
    {
      StoredApart(w.cm.name, w.log[j].version, entry.version);
    }
    forall k | k in store' && Owned(store'[k], w.cm.name)
      ensures exists j :: 0 <= j < |w'.log| && k == StoredName(w.cm.name, w'.log[j].version)
    {
      if k == key {
        assert w'.log[|w.log|] == entry;
      } else {
        var j :| 0 <= j < |w.log| && k == StoredName(w.cm.name, w.log[j].version);
        assert w'.log[j] == w.log[j];
      }
    }
  }

  lemma LabelTests(name: string, current: bool, latest: bool)
    ensures NAME in Labels(name, current, latest) && Lookup(Labels(name, current, latest), NAME) == name
    ensures Lookup(Labels(name, current, latest), CURRENT) == "true" <==> current
    ensures Lookup(Labels(name, current, latest), LATEST) == "true" <==> latest
    ensures Labels(name, current, latest) - {CURRENT} == Labels(name, false, latest)
    ensures Labels(name, current, latest) - {LATEST} == Labels(name, current, false)
    ensures Labels(name, current, latest)[CURRENT := "true"] == Labels(name, true, latest)
    ensures Labels(name, current, latest)[LATEST := "true"] == Labels(name, current, true)
  {
  }

  /** The marks are labels of their own. */
  lemma MarksAreLabels(name: string)
    ensures Labels(name, false, false) == map["name" := name]
    ensures Labels(name, true, false) == map["name" := name, "current" := "true"]
    ensures Labels(name, false, true) == map["name" := name, "latest" := "true"]
    ensures Labels(name, true, true) == map["name" := name, "current" := "true", "latest" := "true"]
  {
  }

  /** Only the snapshots of this ConfigMap change, and none of them goes away. */
  ghost predicate Spares(s0: Store, s1: Store, name: string) {
    && (forall k :: k in s0 ==> k in s1 && if Owned(s0[k], name) then Owned(s1[k], name) else s1[k] == s0[k])
    && (forall k :: k in s1 && k !in s0 ==> Owned(s1[k], name))
  }

  lemma SparesItself(store: Store, name: string)
    ensures Spares(store, store, name)
  {
  }

  lemma SparesOnward(s0: Store, s1: Store, s2: Store, name: string)
    requires Spares(s0, s1, name) && Spares(s1, s2, name)
    ensures Spares(s0, s2, name)
  {
  }

  lemma OwnWrite(store: Store, key: string, o: CustomConfigMap, name: string)
    requires Owned(o, name) && (key in store ==> Owned(store[key], name))
    ensures Spares(store, store[key := o], name)
  {
  }

  /** What the store settles about the environment: a taken name refuses the new snapshot,
      and what a rollback finds if not a snapshot of this ConfigMap. */
  ghost predicate Serves(store: Store, w: World, e: Env) {
    && e.version != "" && AllNameChars(e.version)
    && (StoredName(w.cm.name, e.version) in store ==> e.createFails)
    && e.foreign == FoundElsewhere(store, w.cm)
  }

  ghost function FoundElsewhere(store: Store, cm: ConfigMap): Foreign {
    var sought := SoughtName(cm.name, VersionOf(cm));
    if sought in store && !Owned(store[sought], cm.name)
    then Other(store[sought].spec.content, store[sought].labels != map[])
    else Nothing
  }

  /** A map without entries is read back as nil and cannot be written into. */
  function MarkedCurrent(o: CustomConfigMap): CustomConfigMap {
    if o.labels == map[] then o
    else o.(labels := o.labels[CURRENT := "true"], resourceVersion := o.resourceVersion + 1)
  }

  /** Beside the snapshots of this ConfigMap only a foreign one that a rollback ends at
      changes; it gets the current mark. */
  ghost predicate Frame(s0: Store, s1: Store, w: World, e: Env)
    requires Tracked(w)
  {
    var sought := SoughtName(w.cm.name, VersionOf(w.cm));
    if TakesForeign(w, e) then
      sought in s0 && !Owned(s0[sought], w.cm.name)
      && Spares(s0[sought := MarkedCurrent(s0[sought])], s1, w.cm.name)
    else Spares(s0, s1, w.cm.name)
  }

  lemma OwnMark(store: Store, w: World, i: nat)
    requires Holds(store, w) && WellVersioned(w) && i < |w.log|
    ensures KeyOf(w, i) in store && Owned(store[KeyOf(w, i)], w.cm.name) && store[KeyOf(w, i)].labels != map[]
    ensures var o := MarkedCurrent(store[KeyOf(w, i)]);
            Stores(o, w.cm.name, w.log[i], true, i in w.latests) && Owned(o, w.cm.name)
    ensures Holds(store[KeyOf(w, i) := MarkedCurrent(store[KeyOf(w, i)])], w.(currents := w.currents + {i}))
  {
    hide StoredName, Labels, NameValidation, Holds;
    StoredAt(store, w, i);
    LabelTests(w.cm.name, i in w.currents, i in w.latests);
    LabelTests(w.cm.name, true, i in w.latests);
    assert NAME in store[KeyOf(w, i)].labels;
    Remarked(store, w, i, MarkedCurrent(store[KeyOf(w, i)]), w.currents + {i}, w.latests);
    HoldsSame(store[KeyOf(w, i) := MarkedCurrent(store[KeyOf(w, i)])],
              w.(currents := w.currents + {i}, latests := w.latests), w.(currents := w.currents + {i}));
  }

  lemma ForeignWrite(store: Store, w: World, key: string)
    requires Holds(store, w) && key in store && !Owned(store[key], w.cm.name)
    ensures Holds(store[key := MarkedCurrent(store[key])], w)
    ensures forall i :: 0 <= i < |w.log| ==> KeyOf(w, i) != key
  {
    hide StoredName, Labels, NameValidation;
    forall i | 0 <= i < |w.log| ensures KeyOf(w, i) != key {
      StoredAt(store, w, i);
      LabelTests(w.cm.name, i in w.currents, i in w.latests);
    }
    forall i | 0 <= i < |w.log| ensures StoredName(w.cm.name, w.log[i].version) != key {
      assert KeyOf(w, i) != key;
    }
  }

  /** A ConfigMap whose snapshot another one's rollback ends at gets a second current mark
      unless that snapshot was its current one already. */
  lemma ForeignMark(s0: Store, s1: Store, w: World, e: Env, other: World, i: nat)
    requires Tracked(w) && TakesForeign(w, e) && Frame(s0, s1, w, e)
    requires Holds(s0, other) && Tracked(other) && other.cm.name != w.cm.name
    requires i < |other.log| && KeyOf(other, i) == SoughtName(w.cm.name, VersionOf(w.cm))
    requires forall k :: k in s1 ==> s1[k].name == k
    ensures var other' := other.(currents := other.currents + {i});
            Holds(s1, other') && (Tracked(other') <==> other.currents <= {i})
  {
    hide StoredName, Labels, NameValidation, Spares, SoughtName, Holds, MarkedCurrent;
    var key := KeyOf(other, i);
    var other' := other.(currents := other.currents + {i});
    OwnMark(s0, other, i);
    OtherConfigMapsKept(s0[key := MarkedCurrent(s0[key])], s1, w.cm.name, other');
    assert i in other'.currents;
  }

  /** What a reconcile of one ConfigMap spares includes all another one relies on. */
  lemma OtherConfigMapsKept(s0: Store, s1: Store, name: string, other: World)
    requires Spares(s0, s1, name) && Holds(s0, other) && other.cm.name != name
    requires forall k :: k in s1 ==> s1[k].name == k
    ensures Holds(s1, other)
  {
    hide StoredName, Labels, NameValidation, Stores;
    forall i | 0 <= i < |other.log|
      ensures KeyOf(other, i) in s1 && s1[KeyOf(other, i)] == s0[KeyOf(other, i)]
      ensures Stores(s1[KeyOf(other, i)], other.cm.name, other.log[i], i in other.currents, i in other.latests)
    {
      ForeignTo(s0, other, i, name);
    }
    forall k | k in s1 && Owned(s1[k], other.cm.name)
      ensures exists i :: 0 <= i < |other.log| && k == StoredName(other.cm.name, other.log[i].version)
    {
      assert k in s0 && s0[k] == s1[k];
    }
    assert Holds(s1, other);
  }

  lemma ForeignTo(store: Store, w: World, i: nat, name: string)
    requires Holds(store, w) && i < |w.log| && w.cm.name != name
    ensures KeyOf(w, i) in store && !Owned(store[KeyOf(w, i)], name)
    ensures Stores(store[KeyOf(w, i)], w.cm.name, w.log[i], i in w.currents, i in w.latests)
  {
    hide StoredName, Labels, NameValidation;
    StoredAt(store, w, i);
    LabelTests(w.cm.name, i in w.currents, i in w.latests);
  }

  // ---------------------------------------------------------------- the API server

  /** MatchingLabels{"name": name, mark: "true"} */
  predicate Selected(o: CustomConfigMap, name: string, mark: string) {
    Lookup(o.labels, NAME) == name && Lookup(o.labels, mark) == "true"
  }

  class ApiServer {
    var configMaps: map<string, ConfigMap>
    var snapshots: Store
    var writes: nat

    method List(name: string, mark: string) returns (items: seq<CustomConfigMap>)
      requires forall k :: k in snapshots ==> snapshots[k].name == k
      ensures forall o :: o in items <==> exists k :: k in snapshots && o == snapshots[k] && Selected(o, name, mark)
      ensures forall i, j :: 0 <= i < j < |items| ==> items[i].name != items[j].name
    {
      items := [];
      var rest := snapshots.Keys;
      while rest != {}
        invariant rest <= snapshots.Keys
        invariant forall o :: o in items <==>
                    exists k :: k in snapshots && k !in rest && o == snapshots[k] && Selected(o, name, mark)
        invariant forall i, j :: 0 <= i < j < |items| ==> items[i].name != items[j].name
        decreases rest
      {
        var k :| k in rest;
        assert forall o :: o in items ==> o.name != k;
        rest := rest - {k};
        if Selected(snapshots[k], name, mark) {
          assert snapshots[k] !in items;
          items := items + [snapshots[k]];
        }
      }
    }

    /** Optimistic concurrency: the copy must be of the stored resource version, which then
        moves on, in the store and in the copy. */
    method Update(o: CustomConfigMap) returns (ok: bool, o': CustomConfigMap)
      modifies this`snapshots, this`writes
      ensures ok <==> o.name in old(snapshots) && old(snapshots)[o.name].resourceVersion == o.resourceVersion
      ensures ok ==> o' == o.(resourceVersion := o.resourceVersion + 1)
                     && snapshots == old(snapshots)[o.name := o'] && writes == old(writes) + 1
      ensures !ok ==> o' == o && snapshots == old(snapshots) && writes == old(writes)
    {
      o' := o;
      ok := o.name in snapshots && snapshots[o.name].resourceVersion == o.resourceVersion;
      if ok {
        o' := o.(resourceVersion := o.resourceVersion + 1);
        snapshots := snapshots[o.name := o'];
        writes := writes + 1;
      }
    }

    method Create(o: CustomConfigMap, fails: bool) returns (ok: bool)
      modifies this`snapshots, this`writes
      ensures ok <==> !fails && o.name !in old(snapshots)
      ensures ok ==> snapshots == old(snapshots)[o.name := o] && writes == old(writes) + 1
      ensures !ok ==> snapshots == old(snapshots) && writes == old(writes)
    {
      ok := !fails && o.name !in snapshots;
      if ok {
        snapshots := snapshots[o.name := o];
        writes := writes + 1;
      }
    }

    method UpdateConfigMap(cm: ConfigMap)
      requires cm.name in configMaps
      modifies this`configMaps, this`writes
      ensures configMaps == old(configMaps)[cm.name := cm] && writes == old(writes) + 1
    {
      configMaps := configMaps[cm.name := cm];
      writes := writes + 1;
    }

    /** Another writer saves a snapshot without changing what the controller looks at. */
    method Touch(name: string)
      requires name in snapshots
      modifies this`snapshots
      ensures var o := old(snapshots)[name];
              snapshots == old(snapshots)[name := o.(resourceVersion := o.resourceVersion + 1)]
    {
      snapshots := snapshots[name := snapshots[name].(resourceVersion := snapshots[name].resourceVersion + 1)];
    }

    // -------------------------------------------------------------- the controller

    /** The server's view of one ConfigMap is the world w. */
    ghost predicate Shows(w: World)
      reads this
    {
      && w.cm.name in configMaps && configMaps[w.cm.name] == w.cm
      && Holds(snapshots, w) && writes == w.writes
    }

    /** The one snapshot carrying a mark, if any. */
    method Marked(name: string, mark: string, ghost w: World) returns (items: seq<CustomConfigMap>)
      requires Shows(w) && Tracked(w) && name == w.cm.name && mark in {CURRENT, LATEST}
      ensures var marks := if mark == CURRENT then w.currents else w.latests;
              items == if marks == {} then [] else [snapshots[KeyOf(w, TheOne(marks))]]
    {
      items := List(name, mark);
      MarkedItems(snapshots, w, mark, items);
    }

    /** Removing the latest mark, trying again while other writers get in between; returns
        the list the last try has worked on, or nothing where the source indexes an empty
        list. */
    method RemoveLatest(name: string, interference: nat, ghost w: World) returns (latest: seq<CustomConfigMap>)
      requires Shows(w) && Tracked(w) && name == w.cm.name
      modifies this`snapshots, this`writes
      ensures w.latests == {} ==> latest == [] && Shows(w) && snapshots == old(snapshots)
      ensures w.latests != {} ==> Touched(old(snapshots), snapshots, latest, interference <= 5, w)
      ensures w.latests != {} ==> Shows(if interference <= 5 then w.(latests := {}, writes := w.writes + 1) else w)
      ensures Spares(old(snapshots), snapshots, w.cm.name)
    {
      hide StoredName, Holds, Labels, Spares, Touched;
      latest := [];
      SparesItself(snapshots, name);
      var i := 0;
      while i <= 5
        invariant Shows(w) && i <= interference && i <= 6
        invariant i == 0 ==> latest == [] && snapshots == old(snapshots)
        invariant i > 0 ==> w.latests != {} && Touched(old(snapshots), snapshots, latest, false, w)
        invariant Spares(old(snapshots), snapshots, name)
        decreases 6 - i
      {
        ghost var before := snapshots;
        var ok;
        latest, ok := TryRemoveLatest(name, i < interference, w);
        if latest == [] {
          return;
        }
        SparesOnward(old(snapshots), before, snapshots, name);
        if i > 0 {
          TriedAgain(old(snapshots), before, snapshots, latest, ok, w);
        }
        if ok {
          return;
        }
        i := i + 1;
      }
    }

    /** One try: list, let another writer get in between or not, update. */
    method TryRemoveLatest(name: string, disturbed: bool, ghost w: World)
      returns (latest: seq<CustomConfigMap>, ok: bool)
      requires Shows(w) && Tracked(w) && name == w.cm.name
      modifies this`snapshots, this`writes
      ensures w.latests == {} ==> latest == [] && Shows(w) && snapshots == old(snapshots)
      ensures w.latests != {} ==> latest != []
      ensures w.latests != {} ==> ok == !disturbed && Touched(old(snapshots), snapshots, latest, ok, w)
      ensures w.latests != {} ==> Shows(if ok then w.(latests := {}, writes := w.writes + 1) else w)
      ensures Spares(old(snapshots), snapshots, name)
    {
      hide StoredName, Holds, Labels, Spares;
      ok := false;
      SparesItself(snapshots, name);
      latest := Marked(name, LATEST, w);
      if latest == [] {
        return;
      }
      ghost var l, s0 := TheOne(w.latests), snapshots;
      StoredAt(s0, w, l);
      LabelTests(name, l in w.currents, true);
      LabelTests(name, l in w.currents, false);
      var copy := latest[0].(labels := latest[0].labels - {LATEST});
      if disturbed {
        TouchedHolds(s0, w, l);
        OwnWrite(s0, copy.name, s0[copy.name].(resourceVersion := s0[copy.name].resourceVersion + 1), name);
        Touch(copy.name);
      }
      ok, copy := Update(copy);
      latest := [copy];
      if ok {
        OwnWrite(s0, copy.name, copy, name);
        Remarked(s0, w, l, copy, w.currents, {});
        HoldsSame(snapshots, w.(currents := w.currents, latests := {}), w.(latests := {}, writes := w.writes + 1));
      }
    }

    /** The marks are put back after a snapshot could not be created. */
    method Revert(currentccm: CustomConfigMap, latest: CustomConfigMap) returns (ghost written: nat)
      modifies this`snapshots, this`writes
      ensures Reverted(old(snapshots), snapshots, currentccm, latest, written) && writes == old(writes) + written
    {
      written := 0;
      var ok, o := Update(currentccm.(labels := currentccm.labels[CURRENT := "true"]));
      if !ok {
        return;
      }
      ok, o := Update(latest.(labels := latest.labels[LATEST := "true"]));
      written := if ok then 2 else 1;
    }

    /** The current mark is taken off the given snapshot. */
    method Demote(current: CustomConfigMap, ghost w: World, ghost to: set<nat>) returns (copy: CustomConfigMap)
      requires Shows(w) && WellVersioned(w)
      requires exists c :: c in w.currents && to == w.currents - {c} && KeyOf(w, c) in snapshots
                 && current == snapshots[KeyOf(w, c)]
      modifies this`snapshots, this`writes
      ensures Shows(w.(currents := to, writes := w.writes + 1))
      ensures copy == current.(labels := current.labels - {CURRENT}, resourceVersion := current.resourceVersion + 1)
      ensures snapshots == old(snapshots)[current.name := copy]
      ensures Spares(old(snapshots), snapshots, w.cm.name)
    {
      hide StoredName, Holds, Labels;
      ghost var c :| c in w.currents && to == w.currents - {c} && KeyOf(w, c) in snapshots
                     && current == snapshots[KeyOf(w, c)];
      StoredAt(snapshots, w, c);
      LabelTests(w.cm.name, true, c in w.latests);
      var ok;
      ghost var before := snapshots;
      ok, copy := Update(current.(labels := current.labels - {CURRENT}));
      Remarked(before, w, c, copy, to, w.latests);
      LabelTests(w.cm.name, false, c in w.latests);
      OwnWrite(before, current.name, copy, w.cm.name);
      HoldsSame(snapshots, w.(currents := to, latests := w.latests), w.(currents := to, writes := w.writes + 1));
    }

    /** CreateNewCCM: a new snapshot becomes current and latest and the ConfigMap is annotated
        with it. */
    method CreateNewCCM(configMap: ConfigMap, current: CustomConfigMap, e: Env, ghost w: World)
      returns (outcome: Outcome)
      requires Shows(w) && Tracked(w) && w.cm == configMap && w.currents != {}
      requires KeyOf(w, TheOne(w.currents)) in snapshots && current == snapshots[KeyOf(w, TheOne(w.currents))]
      requires Serves(snapshots, w, e)
      modifies this
      ensures Shows(CommitNew(w, e).0) && outcome == CommitNew(w, e).1
      ensures configMaps == old(configMaps)[configMap.name := CommitNew(w, e).0.cm]
      ensures Spares(old(snapshots), snapshots, configMap.name)
    {
      hide StoredName, Holds, Labels, Spares;
      ghost var c, s0 := TheOne(w.currents), snapshots;
      StoredAt(snapshots, w, c);
      LabelTests(configMap.name, true, c in w.latests);
      assert c in w.currents && {} == w.currents - {c};
      var currentccm := Demote(current, w, {});
      ghost var w1 := w.(currents := {}, writes := w.writes + 1);
      assert currentccm.name in snapshots && snapshots[currentccm.name] == currentccm;
      ghost var s1 := snapshots;
      var latest := RemoveLatest(configMap.name, e.interference, w1);
      ghost var s2 := snapshots;
      SparesOnward(s0, s1, s2, configMap.name);
      if latest == [] {
        return Panic;
      }
      KeysApart(w, c, TheOne(w.latests));
      outcome := Publish(configMap, currentccm, latest[0], e, w);
      SparesOnward(s0, s2, snapshots, configMap.name);
    }

    /** The second half of CreateNewCCM: create, then annotate, or put the marks back. */
    method Publish(configMap: ConfigMap, currentccm: CustomConfigMap, latest: CustomConfigMap, e: Env, ghost w: World)
      returns (outcome: Outcome)
      requires Tracked(w) && w.cm == configMap && w.currents != {} && w.latests != {}
      requires Shows(Unmarking(w, e)) && Copies(snapshots, w, currentccm, latest, e.interference <= 5)
      requires Serves(snapshots, w, e)
      modifies this
      ensures Shows(CommitNew(w, e).0) && outcome == CommitNew(w, e).1
      ensures configMaps == old(configMaps)[configMap.name := CommitNew(w, e).0.cm]
      ensures Spares(old(snapshots), snapshots, configMap.name)
    {
      hide StoredName, Holds, Labels, Copies, Spares, Reverted, CommitNew, Annotated;
      ghost var w2, store := Unmarking(w, e), snapshots;
      var ccmNew := NewCustomConfigMap(configMap, e.version);
      var ok := Create(ccmNew, e.createFails);
      CommitCases(w, e);
      if !ok {
        ghost var written := Revert(currentccm, latest);
        RevertMarks(store, snapshots, w, w2, currentccm, latest, e, written);
        RevertSpares(store, snapshots, w, currentccm, latest, e, written);
        return Error;
      }
      CreatedSnapshot(store, w2, ccmNew, e, CommitNew(w, e).0);
      if configMap.annotations == map[] {
        return Panic;
      }
      UpdateConfigMap(Annotated(configMap, e.version));
      return Done;
    }

    /** CopyCCMToCM: the content of the snapshot found goes into the ConfigMap and that
        snapshot gets the current mark, beside the one that still has it. */
    method CopyCCMToCM(configMap: ConfigMap, ghost e: Env, ghost w: World) returns (outcome: Outcome)
      requires Shows(w) && Tracked(w) && w.cm == configMap && Serves(snapshots, w, e)
      modifies this
      ensures Shows(Copied(w, e).0) && outcome == Copied(w, e).1
      ensures configMaps == old(configMaps)[configMap.name := Copied(w, e).0.cm]
      ensures snapshots == Recalled(old(snapshots), configMap)
    {
      hide Holds, Labels, StoredName, SoughtName, NameValidation;
      CopiedHolds(snapshots, w, e);
      var sought := SoughtName(configMap.name, VersionOf(configMap));
      if sought !in snapshots {
        assert configMaps == configMaps[configMap.name := configMap];
        return Error;
      }
      var ccm := snapshots[sought];
      UpdateConfigMap(configMap.(content := ccm.spec.content));
      if ccm.labels == map[] {
        assert snapshots == snapshots[sought := ccm];
        return Panic;
      }
      var ok;
      ok, ccm := Update(ccm.(labels := ccm.labels[CURRENT := "true"]));
      return Done;
    }

    /** UpdateConfigMap: a ConfigMap that names a version is brought to it, or its edit is
        committed. */
    method UpdateFromVersion(configMap: ConfigMap, e: Env, ghost w: World) returns (outcome: Outcome)
      requires Shows(w) && Tracked(w) && w.cm == configMap && VersionOf(w.cm) != ""
      requires Serves(snapshots, w, e)
      modifies this
      ensures Shows(Reconciled(w, e).0) && outcome == Reconciled(w, e).1
      ensures configMaps == old(configMaps)[configMap.name := Reconciled(w, e).0.cm]
      ensures Frame(old(snapshots), snapshots, w, e)
    {
      hide Holds, Labels, StoredName, SoughtName, NameValidation, CommitNew, Annotated, Spares, Serves, Copied;
      hide Recalled, Reconciled, Frame;
      UpdateCases(w, e);
      SparesItself(snapshots, configMap.name);
      var items := Marked(configMap.name, CURRENT, w);
      if items == [] {
        FrameOf(snapshots, snapshots, w, e);
        assert configMaps == configMaps[configMap.name := configMap];
        return Done;
      }
      var current := items[0];
      ghost var c := TheOne(w.currents);
      StoredAt(snapshots, w, c);
      if Lookup(current.annotations, CCM_VERSION) != VersionOf(configMap) {
        outcome := RollBack(configMap, current, e, w);
      } else if configMap.content != current.spec.content {
        ghost var s0 := snapshots;
        outcome := CreateNewCCM(configMap, current, e, w);
        FrameOf(s0, snapshots, w, e);
      } else {
        FrameOf(snapshots, snapshots, w, e);
        assert configMaps == configMaps[configMap.name := configMap];
        outcome := Done;
      }
    }

    /** The rollback of UpdateConfigMap: copy, then take the mark off the former current
        snapshot. */
    method RollBack(configMap: ConfigMap, current: CustomConfigMap, e: Env, ghost w: World) returns (outcome: Outcome)
      requires Shows(w) && Tracked(w) && w.cm == configMap && w.currents != {}
      requires VersionOf(w.cm) !in {"", w.log[TheOne(w.currents)].version}
      requires KeyOf(w, TheOne(w.currents)) in snapshots && current == snapshots[KeyOf(w, TheOne(w.currents))]
      requires Serves(snapshots, w, e)
      modifies this
      ensures Shows(Reconciled(w, e).0) && outcome == Reconciled(w, e).1
      ensures configMaps == old(configMaps)[configMap.name := Reconciled(w, e).0.cm]
      ensures Frame(old(snapshots), snapshots, w, e)
    {
      hide Holds, Labels, StoredName, SoughtName, NameValidation, Annotated, Spares, Serves, Copied, Recalled;
      hide Reconciled, Frame, CommitNew;
      ghost var s0, c := snapshots, TheOne(w.currents);
      outcome := CopyCCMToCM(configMap, e, w);
      RollbackCases(w, e);
      CurrentKept(s0, w, e);
      ghost var w1 := Copied(w, e).0;
      if outcome != Done {
        RecalledFrame(s0, snapshots, w, e);
        return;
      }
      var copy := Demote(current, w1, w1.currents - {c});
      RecalledFrame(s0, snapshots, w, e);
    }

    /** The first snapshot of a ConfigMap that names no version. */
    method FirstCCM(configMap: ConfigMap, e: Env, ghost w: World) returns (outcome: Outcome)
      requires Shows(w) && Tracked(w) && w.cm == configMap && w.currents == {} && VersionOf(w.cm) == ""
      requires Serves(snapshots, w, e)
      modifies this
      ensures Shows(Reconciled(w, e).0) && outcome == Reconciled(w, e).1
      ensures configMaps == old(configMaps)[configMap.name := Reconciled(w, e).0.cm]
      ensures Spares(old(snapshots), snapshots, configMap.name)
    {
      hide Holds, Labels, StoredName, NameValidation, Spares, CommitNew, Annotated;
      ghost var store := snapshots;
      SparesItself(store, configMap.name);
      var ccm := NewCustomConfigMap(configMap, e.version);
      var ok := Create(ccm, e.createFails);
      if !ok {
        return Error;
      }
      AnnotatedName(configMap, e.version);
      CreatedSnapshot(store, w, ccm, e, Reconciled(w, e).0);
      UpdateConfigMap(Annotated(configMap, e.version));
      return Done;
    }

    /** ConfigMapReconciler.Reconcile: whatever the server holds for this ConfigMap moves as
        the abstract machine does, nothing else changes. */
    method Reconcile(name: string, e: Env, ghost w: World) returns (outcome: Outcome)
      requires name in configMaps ==> Shows(w) && Tracked(w) && w.cm.name == name && Serves(snapshots, w, e)
      modifies this
      ensures name !in old(configMaps) ==>
                outcome == Done && configMaps == old(configMaps) && snapshots == old(snapshots)
      ensures name in old(configMaps) ==>
                && Shows(Reconciled(w, e).0) && outcome == Reconciled(w, e).1
                && configMaps == old(configMaps)[name := Reconciled(w, e).0.cm]
                && Frame(old(snapshots), snapshots, w, e)
    {
      hide Holds, Labels, StoredName, SoughtName, NameValidation, CommitNew, Annotated, Spares, Serves, Frame;
      SparesItself(snapshots, name);
      ghost var s0 := snapshots;
      if name !in configMaps {
        return Done;
      }
      var configMap := configMaps[name];
      if VersionOf(configMap) != "" {
        outcome := UpdateFromVersion(configMap, e, w);
        return;
      }
      var items := Marked(name, CURRENT, w);
      if items == [] {
        outcome := FirstCCM(configMap, e, w);
        FrameOf(s0, snapshots, w, e);
        return;
      }
      var current := items[0];
      ghost var c := TheOne(w.currents);
      StoredAt(snapshots, w, c);
      if configMap.content != current.spec.content {
        outcome := CreateNewCCM(configMap, current, e, w);
      } else {
        var version := Lookup(current.annotations, CCM_VERSION);
        ghost var w' := Reconciled(w, e).0;
        AnnotatedName(configMap, version);
        UpdateConfigMap(Annotated(configMap, version));
        HoldsSame(snapshots, w, w');
        outcome := Done;
      }
      FrameOf(s0, snapshots, w, e);
    }
  }

  /** newCustomConfigMap: the first or a new version, current and latest. */
  function NewCustomConfigMap(configMap: ConfigMap, version: string): CustomConfigMap {
    CustomConfigMap(StoredName(configMap.name, version), Labels(configMap.name, true, true),
                    map[CCM_VERSION := version], Spec(configMap.content, configMap.name), 0)
  }

  /** What the snapshot of a version looks like when it is made. */
  lemma SnapshotIsMade(configMap: ConfigMap, version: string)
    ensures var o := NewCustomConfigMap(configMap, version);
            && o.name == NameValidation(configMap.name + "-" + version)
            && o.labels == map["name" := configMap.name, "latest" := "true", "current" := "true"]
            && o.annotations == map["customConfigMapVersion" := version]
            && o.spec == Spec(configMap.content, configMap.name)
            && Selected(o, configMap.name, "current") && Selected(o, configMap.name, "latest")
  {
    hide NameValidation;
  }

  lemma CreatedSnapshot(store: Store, w: World, ccm: CustomConfigMap, e: Env, w': World)
    requires Holds(store, w) && WellVersioned(w) && w.currents == {} && Serves(store, w, e) && !e.createFails
    requires ccm == NewCustomConfigMap(w.cm, e.version)
    requires w'.cm.name == w.cm.name && w'.log == w.log + [Entry(e.version, w.cm.content)]
    requires w'.currents == {|w.log|} && w'.latests == w.latests + {|w.log|}
    ensures Holds(store[ccm.name := ccm], w')
    ensures Spares(store, store[ccm.name := ccm], w.cm.name)
  {
    hide Holds, StoredName, Labels, Spares;
    ServesFresh(store, w, e);
    LabelTests(w.cm.name, true, true);
    OwnWrite(store, ccm.name, ccm, w.cm.name);
    var entry := Entry(e.version, w.cm.content);
    Appended(store, w, entry, ccm, {|w.log|}, w.latests + {|w.log|});
    HoldsSame(store[ccm.name := ccm],
              w.(log := w.log + [entry], currents := {|w.log|}, latests := w.latests + {|w.log|}), w');
  }

  /** The cases of the abstract commit seen from where the new snapshot is created. */
  lemma CommitCases(w: World, e: Env)
    requires Tracked(w) && w.currents != {} && w.latests != {}
    ensures var (w', outcome) := CommitNew(w, e);
            var w2 := Unmarking(w, e);
            && w'.cm.name == w.cm.name
            && (e.createFails ==> w'.cm == w.cm && outcome == Error)
            && (!e.createFails ==>
                  && w'.log == w.log + [Entry(e.version, w.cm.content)]
                  && w'.currents == {|w.log|} && w'.latests == w2.latests + {|w.log|}
                  && if w.cm.annotations == map[] then w'.cm == w.cm && w'.writes == w2.writes + 1 && outcome == Panic
                     else w'.cm == Annotated(w.cm, e.version) && w'.writes == w2.writes + 2 && outcome == Done)
  {
    hide StoredName;
  }

  lemma ServesFresh(store: Store, w: World, e: Env)
    requires Holds(store, w) && Serves(store, w, e) && !e.createFails
    ensures Fresh(w, e)
  {
    hide StoredName, Labels;
    forall i | 0 <= i < |w.log| ensures w.log[i].version != e.version {
      StoredAt(store, w, i);
    }
  }

  lemma AnnotatedName(cm: ConfigMap, version: string)
    ensures Annotated(cm, version).name == cm.name
  {
    hide StoredName;
  }

  /** The rollback's lookup finds an own snapshot exactly if the version is recorded and the
      name is one NameValidation keeps. */
  lemma SoughtIsStored(store: Store, w: World, v: string)
    requires Holds(store, w) && Tracked(w)
    ensures var sought := SoughtName(w.cm.name, v);
            && (sought in store && Owned(store[sought], w.cm.name) <==> HasVersion(w.log, v) && AllNameChars(w.cm.name))
            && (HasVersion(w.log, v) && AllNameChars(w.cm.name) ==> sought == KeyOf(w, IndexOf(w.log, v)))
  {
    hide StoredName, SoughtName, Labels, NameValidation;
    var sought := SoughtName(w.cm.name, v);
    if sought in store && Owned(store[sought], w.cm.name) {
      var i :| 0 <= i < |w.log| && sought == StoredName(w.cm.name, w.log[i].version);
      RollbackFindsStored(w.cm.name, v, w.log[i].version);
    }
    if HasVersion(w.log, v) && AllNameChars(w.cm.name) {
      var i := IndexOf(w.log, v);
      RollbackFindsStored(w.cm.name, v, w.log[i].version);
      StoredAt(store, w, i);
      LabelTests(w.cm.name, i in w.currents, i in w.latests);
    }
  }

  /** The snapshot a rollback finds gets the current mark. */
  ghost function Recalled(store: Store, cm: ConfigMap): Store {
    var sought := SoughtName(cm.name, VersionOf(cm));
    if sought in store then store[sought := MarkedCurrent(store[sought])] else store
  }

  /** CopyCCMToCM, abstractly. */
  ghost function Copied(w: World, e: Env): (World, Outcome)
    requires Tracked(w)
  {
    var v := VersionOf(w.cm);
    if HasVersion(w.log, v) && AllNameChars(w.cm.name) then
      var i := IndexOf(w.log, v);
      (w.(cm := w.cm.(content := w.log[i].content), currents := w.currents + {i}, writes := w.writes + 2), Done)
    else
      match e.foreign
      case Nothing => (w, Error)
      case Other(content, labelled) =>
        (w.(cm := w.cm.(content := content), writes := w.writes + if labelled then 2 else 1),
         if labelled then Done else Panic)
  }

  lemma CopiedHolds(store: Store, w: World, e: Env)
    requires Holds(store, w) && Tracked(w) && Serves(store, w, e)
    ensures Holds(Recalled(store, w.cm), Copied(w, e).0)
    ensures var sought := SoughtName(w.cm.name, VersionOf(w.cm));
            if sought !in store then Copied(w, e) == (w, Error)
            else
              && store[sought].name == sought
              && Copied(w, e).0.cm == w.cm.(content := store[sought].spec.content)
              && Copied(w, e).0.writes == w.writes + (if store[sought].labels == map[] then 1 else 2)
              && Copied(w, e).1 == if store[sought].labels == map[] then Panic else Done
  {
    hide StoredName, SoughtName, Labels, NameValidation, Holds, MarkedCurrent;
    var v := VersionOf(w.cm);
    assert forall k :: k in store ==> store[k].name == k by { Named(store, w); }
    SoughtIsStored(store, w, v);
    var sought := SoughtName(w.cm.name, v);
    if HasVersion(w.log, v) && AllNameChars(w.cm.name) {
      var i := IndexOf(w.log, v);
      StoredAt(store, w, i);
      OwnMark(store, w, i);
      HoldsSame(Recalled(store, w.cm), w.(currents := w.currents + {i}), Copied(w, e).0);
    } else if sought in store {
      ForeignWrite(store, w, sought);
      HoldsSame(Recalled(store, w.cm), w, Copied(w, e).0);
    } else {
      HoldsSame(store, w, Copied(w, e).0);
    }
  }

  /** After the copy the former current snapshot is as it was... */
  lemma CurrentKept(store: Store, w: World, e: Env)
    requires Holds(store, w) && Tracked(w) && Serves(store, w, e) && w.currents != {}
    requires VersionOf(w.cm) !in {"", w.log[TheOne(w.currents)].version}
    ensures var key := KeyOf(w, TheOne(w.currents));
            key in store && key in Recalled(store, w.cm) && Recalled(store, w.cm)[key] == store[key]
  {
    hide StoredName, SoughtName, Labels, NameValidation, Holds, MarkedCurrent;
    var c, v := TheOne(w.currents), VersionOf(w.cm);
    StoredAt(store, w, c);
    SoughtIsStored(store, w, v);
    LabelTests(w.cm.name, c in w.currents, c in w.latests);
    if HasVersion(w.log, v) && AllNameChars(w.cm.name) {
      KeysApart(w, c, IndexOf(w.log, v));
    }
  }

  /** ...and what is left is to take its mark off. */
  lemma RollbackCases(w: World, e: Env)
    requires Tracked(w) && w.currents != {}
    requires VersionOf(w.cm) !in {"", w.log[TheOne(w.currents)].version}
    ensures var c := TheOne(w.currents);
            var (w1, outcome) := Copied(w, e);
            var w2 := w1.(currents := w1.currents - {c}, writes := w1.writes + 1);
            && WellVersioned(w1) && w1.cm.name == w.cm.name && w1.log == w.log && c in w1.currents
            && Reconciled(w, e) == (if outcome == Done then w2 else w1, outcome)
  {
    hide CommitNew, Annotated, NameValidation;
    var c, v := TheOne(w.currents), VersionOf(w.cm);
    assert w.currents - {c} == {};
    if HasVersion(w.log, v) && AllNameChars(w.cm.name) {
      assert w.currents + {IndexOf(w.log, v)} - {c} == {IndexOf(w.log, v)};
    }
  }

  lemma RecalledFrame(s0: Store, s2: Store, w: World, e: Env)
    requires Holds(s0, w) && Tracked(w) && Serves(s0, w, e) && w.currents != {}
    requires VersionOf(w.cm) !in {"", w.log[TheOne(w.currents)].version}
    requires s2 == Recalled(s0, w.cm) || Spares(Recalled(s0, w.cm), s2, w.cm.name)
    ensures Frame(s0, s2, w, e)
  {
    hide Holds, StoredName, SoughtName, Labels, NameValidation, Spares;
    var s1, name := Recalled(s0, w.cm), w.cm.name;
    var sought := SoughtName(name, VersionOf(w.cm));
    SparesItself(s0, name);
    SparesItself(s1, name);
    SoughtIsStored(s0, w, VersionOf(w.cm));
    if sought in s0 && Owned(s0[sought], name) {
      OwnWrite(s0, sought, MarkedCurrent(s0[sought]), name);
      SparesOnward(s0, s1, s2, name);
    }
  }

  /** Where nothing is rolled back no foreign snapshot changes. */
  lemma FrameOf(s0: Store, s1: Store, w: World, e: Env)
    requires Tracked(w) && Spares(s0, s1, w.cm.name)
    requires w.currents == {} || VersionOf(w.cm) in {"", w.log[TheOne(w.currents)].version}
    ensures Frame(s0, s1, w, e)
  {
    hide Spares, SoughtName;
  }

  /** UpdateConfigMap apart from the rollback. */
  lemma UpdateCases(w: World, e: Env)
    requires Tracked(w) && VersionOf(w.cm) != ""
    ensures w.currents == {} ==> Reconciled(w, e) == (w, Done)
    ensures w.currents != {} && VersionOf(w.cm) == w.log[TheOne(w.currents)].version ==>
              Reconciled(w, e) == if w.cm.content != w.log[TheOne(w.currents)].content then CommitNew(w, e)
                                  else (w, Done)
  {
    hide CommitNew, Annotated, NameValidation;
  }

  /** Halfway through CreateNewCCM. */
  ghost function Unmarking(w: World, e: Env): World {
    if e.interference <= 5 then w.(currents := {}, latests := {}, writes := w.writes + 2)
    else w.(currents := {}, writes := w.writes + 1)
  }

  /** The copies of the formerly current and latest snapshots held at that point: the first
      is stale if both are the same object, the second if its mark could not be removed. */
  ghost predicate Copies(store: Store, w: World, current: CustomConfigMap, latest: CustomConfigMap, removed: bool)
    requires Tracked(w) && w.currents != {} && w.latests != {}
  {
    var c, l := TheOne(w.currents), TheOne(w.latests);
    && Stores(current, w.cm.name, w.log[c], false, c == l) && current.name in store
    && (if c == l then store[current.name].resourceVersion > current.resourceVersion
        else store[current.name] == current)
    && Stores(latest, w.cm.name, w.log[l], false, false) && latest.name in store
    && (if removed then store[latest.name] == latest else store[latest.name].resourceVersion > latest.resourceVersion)
  }

  /** One try has moved the latest snapshot on, leaving a copy that is up to date or stale. */
  ghost predicate Touched(store0: Store, store: Store, latest: seq<CustomConfigMap>, ok: bool, w: World)
    requires Tracked(w) && w.latests != {}
  {
    var l := TheOne(w.latests);
    var key := KeyOf(w, l);
    && key in store0 && store.Keys == store0.Keys
    && (forall k :: k in store0 && k != key ==> store[k] == store0[k])
    && store[key].resourceVersion > store0[key].resourceVersion
    && |latest| == 1 && Stores(latest[0], w.cm.name, w.log[l], l in w.currents, false)
    && (if ok then latest[0] == store[key] else latest[0].resourceVersion < store[key].resourceVersion)
  }

  /** Tries add up. */
  lemma TriedAgain(store0: Store, before: Store, store: Store, latest: seq<CustomConfigMap>, ok: bool, w: World)
    requires Tracked(w) && w.latests != {}
    requires exists earlier :: Touched(store0, before, earlier, false, w)
    requires Touched(before, store, latest, ok, w)
    ensures Touched(store0, store, latest, ok, w)
  {
    hide StoredName, Labels, NameValidation;
  }

  /** What Revert does to the store. */
  ghost predicate Reverted(store: Store, store': Store, current: CustomConfigMap, latest: CustomConfigMap,
                           written: nat) {
    var c, l := current.(labels := current.labels[CURRENT := "true"]),
                latest.(labels := latest.labels[LATEST := "true"]);
    var okC := c.name in store && store[c.name].resourceVersion == c.resourceVersion;
    var store1 := if okC then store[c.name := c.(resourceVersion := c.resourceVersion + 1)] else store;
    var okL := okC && l.name in store1 && store1[l.name].resourceVersion == l.resourceVersion;
    && store' == (if okL then store1[l.name := l.(resourceVersion := l.resourceVersion + 1)] else store1)
    && written == (if okC then 1 else 0) + (if okL then 1 else 0)
  }

  /** Everything is put back if the two snapshots differ, else nothing. */
  lemma RevertMarks(store: Store, store': Store, w: World, w2: World, current: CustomConfigMap, latest: CustomConfigMap,
                    e: Env, written: nat)
    requires Tracked(w) && w.currents != {} && w.latests != {} && w2 == Unmarking(w, e) && Holds(store, w2)
    requires Copies(store, w, current, latest, e.interference <= 5) && e.createFails
    requires Reverted(store, store', current, latest, written)
    ensures Holds(store', CommitNew(w, e).0) && CommitNew(w, e).0.writes == w2.writes + written
  {
    hide StoredName, Holds, Labels;
    var c, l := TheOne(w.currents), TheOne(w.latests);
    LabelTests(w.cm.name, false, c == l);
    LabelTests(w.cm.name, false, false);
    KeysApart(w, c, l);
    if c == l {
      HoldsSame(store, w2, CommitNew(w, e).0);
    } else {
      var c' := current.(labels := current.labels[CURRENT := "true"], resourceVersion := current.resourceVersion + 1);
      var store1 := store[c'.name := c'];
      Remarked(store, w2, c, c', {c}, w2.latests);
      var w3 := w2.(currents := {c}, latests := w2.latests);
      if e.interference <= 5 {
        var l' := latest.(labels := latest.labels[LATEST := "true"], resourceVersion := latest.resourceVersion + 1);
        Remarked(store1, w3, l, l', {c}, {l});
        HoldsSame(store', w3.(currents := {c}, latests := {l}), CommitNew(w, e).0);
      } else {
        HoldsSame(store', w3, CommitNew(w, e).0);
      }
    }
  }

  lemma RevertSpares(store: Store, store': Store, w: World, current: CustomConfigMap, latest: CustomConfigMap, e: Env,
                     written: nat)
    requires Tracked(w) && w.currents != {} && w.latests != {}
    requires Copies(store, w, current, latest, e.interference <= 5) && Holds(store, Unmarking(w, e))
    requires Reverted(store, store', current, latest, written)
    ensures Spares(store, store', w.cm.name)
  {
    hide StoredName, Labels, Spares;
    var c, l := TheOne(w.currents), TheOne(w.latests);
    StoredAt(store, Unmarking(w, e), c);
    StoredAt(store, Unmarking(w, e), l);
    LabelTests(w.cm.name, false, c == l);
    LabelTests(w.cm.name, true, c == l);
    LabelTests(w.cm.name, false, true);
    LabelTests(w.cm.name, false, false);
    LabelTests(w.cm.name, false, l in Unmarking(w, e).latests);
    LabelTests(w.cm.name, false, c in Unmarking(w, e).latests);
    var cc, ll := current.(labels := current.labels[CURRENT := "true"]),
                  latest.(labels := latest.labels[LATEST := "true"]);
    var cc', ll' := cc.(resourceVersion := cc.resourceVersion + 1), ll.(resourceVersion := ll.resourceVersion + 1);
    SparesItself(store, w.cm.name);
    OwnWrite(store, cc.name, cc', w.cm.name);
    OwnWrite(store[cc.name := cc'], ll.name, ll', w.cm.name);
    SparesOnward(store, store[cc.name := cc'], store[cc.name := cc'][ll.name := ll'], w.cm.name);
  }

  lemma HoldsSame(store: Store, w: World, w': World)
    requires Holds(store, w)
    requires w'.cm.name == w.cm.name && w'.log == w.log && w'.currents == w.currents && w'.latests == w.latests
    ensures Holds(store, w')
  {
  }

  lemma Named(store: Store, w: World)
    requires Holds(store, w)
    ensures forall k :: k in store ==> store[k].name == k
  {
  }

  lemma StoredAt(store: Store, w: World, i: nat)
    requires Holds(store, w) && i < |w.log|
    ensures KeyOf(w, i) in store && store[KeyOf(w, i)].name == KeyOf(w, i)
    ensures Stores(store[KeyOf(w, i)], w.cm.name, w.log[i], i in w.currents, i in w.latests)
  {
  }

  lemma MarkedItems(store: Store, w: World, mark: string, items: seq<CustomConfigMap>)
    requires Holds(store, w) && Tracked(w) && mark in {CURRENT, LATEST}
    requires forall o :: o in items <==> exists k :: k in store && o == store[k] && Selected(o, w.cm.name, mark)
    requires forall i, j :: 0 <= i < j < |items| ==> items[i].name != items[j].name
    ensures var marks := if mark == CURRENT then w.currents else w.latests;
            && (marks != {} ==> KeyOf(w, TheOne(marks)) in store)
            && items == if marks == {} then [] else [store[KeyOf(w, TheOne(marks))]]
  {
    hide StoredName, Labels;
    var marks := if mark == CURRENT then w.currents else w.latests;
    forall o | o in items ensures marks != {} && o == store[KeyOf(w, TheOne(marks))] {
      var k :| k in store && o == store[k] && Selected(o, w.cm.name, mark);
      var i :| 0 <= i < |w.log| && k == StoredName(w.cm.name, w.log[i].version);
      LabelTests(w.cm.name, i in w.currents, i in w.latests);
      assert i in marks;
    }
    if marks != {} {
      var i := TheOne(marks);
      StoredAt(store, w, i);
      LabelTests(w.cm.name, i in w.currents, i in w.latests);
      assert store[KeyOf(w, i)] in items;
    }
    if items != [] {
      assert items[0] in items && items[|items| - 1] in items;
      assert items[0].name == items[|items| - 1].name;
    }
  }

  lemma TouchedHolds(store: Store, w: World, i: nat)
    requires Holds(store, w) && Tracked(w) && i < |w.log|
    ensures KeyOf(w, i) in store
    ensures var o := store[KeyOf(w, i)];
            Holds(store[KeyOf(w, i) := o.(resourceVersion := o.resourceVersion + 1)], w)
  {
    hide StoredName, Labels;
    StoredAt(store, w, i);
    var o := store[KeyOf(w, i)];
    Remarked(store, w, i, o.(resourceVersion := o.resourceVersion + 1), w.currents, w.latests);
    assert w.(currents := w.currents, latests := w.latests) == w;
  }
}
