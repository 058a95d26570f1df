/** What the version protocol guarantees over whole runs of user steps and reconciles. */
module VersionProtocol {
  import opened VersionStore

  datatype Step =
    | Edit(content: Content)
    | SetVersion(version: string)
    | DropVersion
    | DropAnnotations
    | Annotate(key: string, value: string)
    | Reconcile(env: Env)

  function Take(w: World, s: Step): World
    requires s.Reconcile? ==> Tracked(w)
  {
    match s
    case Edit(content) => w.(cm := w.cm.(content := content))
    case SetVersion(version) => w.(cm := w.cm.(annotations := w.cm.annotations[VERSION := version]))
    case DropVersion => w.(cm := w.cm.(annotations := w.cm.annotations - {VERSION}))
    case DropAnnotations => w.(cm := w.cm.(annotations := map[]))
    case Annotate(key, value) => w.(cm := w.cm.(annotations := w.cm.annotations[key := value]))
    case Reconcile(env) => Reconciled(w, env).0
  }

  /** The environment behaves: versions are new, the latest snapshot is written by others at
      most five times in a row, snapshots can be created, a rollback meets no snapshots but
      those of this ConfigMap. */
  predicate Behaves(w: World, e: Env) {
    Fresh(w, e) && e.interference <= 5 && !e.createFails && e.foreign == Nothing
  }

  predicate Legal(w: World, steps: seq<Step>)
    decreases |steps|
  {
    steps == [] ||
    (&& (steps[0].Reconcile? ==> Tracked(w) && Behaves(w, steps[0].env))
     && Legal(Take(w, steps[0]), steps[1..]))
  }

  function Run(w: World, steps: seq<Step>): World
    requires Legal(w, steps)
    decreases |steps|
  {
    if steps == [] then w else Run(Take(w, steps[0]), steps[1..])
  }

  /** One current mark and one latest mark, the latest on the newest version; none of either
      while there are no versions. */
  predicate Inv(w: World) {
    && Tracked(w)
    && (w.log == [] ==> w.currents == {} && w.latests == {})
    && (w.log != [] ==> w.currents != {} && w.latests == {|w.log| - 1})
  }

  /** The ConfigMap is annotated with the current version and holds its content. */
  predicate Synced(w: World)
    requires Inv(w)
  {
    w.log != [] &&
    var c := TheOne(w.currents);
    VersionOf(w.cm) == w.log[c].version && w.cm.content == w.log[c].content
  }

  // ---------------------------------------------------------------- invariant

  /** A reconcile that has to create a version: edited content under the current version, or
      edited content with the version annotation gone. */
  predicate Commits(w: World)
    requires Inv(w)
  {
    w.log != [] &&
    var c := TheOne(w.currents);
    w.cm.content != w.log[c].content && VersionOf(w.cm) in {"", w.log[c].version}
  }

  lemma CommitKeepsInv(w: World, e: Env)
    requires Inv(w) && w.log != [] && Fresh(w, e) && e.interference <= 5 && !e.createFails
    ensures Inv(CommitNew(w, e).0)
  {
    var w' := CommitNew(w, e).0;
    assert forall i, j :: 0 <= i < j < |w'.log| ==> w'.log[i].version != w'.log[j].version by {
      forall i | 0 <= i < |w.log| ensures w.log[i].version != e.version {}
    }
  }

  lemma StepKeepsInv(w: World, s: Step)
    requires Inv(w) && (s.Reconcile? ==> Behaves(w, s.env))
    ensures Inv(Take(w, s))
  {
    if s.Reconcile? {
      hide NameValidation;
      if w.log != [] { CommitKeepsInv(w, s.env); }
      if w.log == [] { assert |Take(w, s).log| <= 1; }
    }
  }

  /** Every reachable state keeps the marks in step. */
  lemma {:induction false} RunKeepsInv(w: World, steps: seq<Step>)
    requires Inv(w) && Legal(w, steps)
    ensures Inv(Run(w, steps))
    decreases |steps|
  {
    if steps != [] {
      StepKeepsInv(w, steps[0]);
      RunKeepsInv(Take(w, steps[0]), steps[1..]);
    }
  }

  // ---------------------------------------------------------------- what one reconcile achieves

  /** What a user can check beforehand: on the first reconcile no version is named; later a
      named version exists and can be looked up, and the annotation map is there to be
      written when edited content has to be committed. */
  predicate CanSync(w: World)
    requires Inv(w)
  {
    if w.log == [] then VersionOf(w.cm) == ""
    else
      var c := TheOne(w.currents);
      if VersionOf(w.cm) in {"", w.log[c].version} then w.cm.content == w.log[c].content || w.cm.annotations != map[]
      else HasVersion(w.log, VersionOf(w.cm)) && AllNameChars(w.cm.name)
  }

  /** After a reconcile the ConfigMap and its current snapshot agree exactly when that was
      possible; otherwise the reconcile fails, panics or, for a ConfigMap that came with a
      version annotation but has no snapshot, silently does nothing. */
  lemma ReconcileSyncs(w: World, e: Env)
    requires Inv(w) && Behaves(w, e)
    ensures var (w', outcome) := Reconciled(w, e);
            && Inv(w')
            && (Synced(w') <==> CanSync(w))
            && (CanSync(w) ==> outcome == Done)
            && (outcome == Panic <==> Commits(w) && w.cm.annotations == map[])
            && (outcome == Done && !CanSync(w) <==> w.log == [] && VersionOf(w.cm) != "")
            && (w.log == [] && VersionOf(w.cm) != "" ==> w' == w)
  {
    hide NameValidation;
    StepKeepsInv(w, Reconcile(e));
    var (w', outcome) := Reconciled(w, e);
    if w.log != [] {
      var c := TheOne(w.currents);
      var v := VersionOf(w.cm);
      if v != "" && v != w.log[c].version && HasVersion(w.log, v) {
        assert w.log[IndexOf(w.log, v)].version == v;
      }
    }
  }

  // ---------------------------------------------------------------- annotations

  /** A reconcile writes annotations if it makes a version, or finds the current one unnamed; a
      commit that finds no annotation map panics instead. */
  predicate WritesAnnotations(w: World, e: Env)
    requires Tracked(w)
  {
    var v := VersionOf(w.cm);
    if w.currents == {} then v == "" && !e.createFails
    else
      var c := w.log[TheOne(w.currents)];
      if w.cm.content == c.content then v == ""
      else v in {"", c.version} && w.latests != {} && !e.createFails && w.cm.annotations != map[]
  }

  /** The user's annotations survive every reconcile.  The controller's three are written exactly
      then, and name the version that is current afterwards. */
  lemma ReconcileAnnotates(w: World, e: Env)
    requires Tracked(w)
    ensures var before, after := w.cm.annotations, Reconciled(w, e).0.cm.annotations;
            && (forall k :: k !in {"currentCustomConfigMapVersion", "customConfigMap-name", "updateMethod"} ==>
                  && (k in after <==> k in before)
                  && (k in before ==> after[k] == before[k]))
            && (!WritesAnnotations(w, e) ==> after == before)
    ensures WritesAnnotations(w, e) ==>
              var w' := Reconciled(w, e).0;
              && w'.currents != {} && AtMostOne(w'.currents) && TheOne(w'.currents) < |w'.log|
              && var version := w'.log[TheOne(w'.currents)].version;
              && "currentCustomConfigMapVersion" in w'.cm.annotations && "customConfigMap-name" in w'.cm.annotations
              && "updateMethod" in w'.cm.annotations
              && w'.cm.annotations["currentCustomConfigMapVersion"] == version
              && w'.cm.annotations["customConfigMap-name"] == NameValidation(w.cm.name + "-" + version)
              && w'.cm.annotations["updateMethod"] == "ignoreWhenShared"
  {
    hide NameValidation;
  }

  /** An annotation the user's steps leave alone. */
  predicate Leaves(s: Step, k: string) {
    !s.DropAnnotations? && (s.Annotate? ==> s.key != k)
  }

  lemma {:induction false} RunKeepsAnnotations(w: World, steps: seq<Step>, k: string)
    requires Legal(w, steps) && k !in {"currentCustomConfigMapVersion", "customConfigMap-name", "updateMethod"}
    requires forall i :: 0 <= i < |steps| ==> Leaves(steps[i], k)
    ensures var before, after := w.cm.annotations, Run(w, steps).cm.annotations;
            && (k in after <==> k in before)
            && (k in before ==> after[k] == before[k])
    decreases |steps|
  {
    if steps != [] {
      hide Reconciled;
      assert Leaves(steps[0], k);
      if steps[0].Reconcile? { ReconcileAnnotates(w, steps[0].env); }
      RunKeepsAnnotations(Take(w, steps[0]), steps[1..], k);
    }
  }

  /** A new version records the content the ConfigMap had, at the end of the log; nothing
      recorded before changes. */
  lemma ReconcileRecords(w: World, e: Env)
    requires Tracked(w)
    ensures var w' := Reconciled(w, e).0;
            w'.log == w.log || w'.log == w.log + [Entry(e.version, w.cm.content)]
    ensures var w' := Reconciled(w, e).0;
            w'.log != w.log ==> w'.cm.content == w.cm.content && w'.currents == {|w.log|} && |w.log| in w'.latests
  {
    hide NameValidation;
  }

  lemma {:induction false} LogOnlyGrows(w: World, steps: seq<Step>)
    requires Legal(w, steps)
    ensures w.log <= Run(w, steps).log
    decreases |steps|
  {
    if steps != [] {
      if steps[0].Reconcile? { ReconcileRecords(w, steps[0].env); }
      LogOnlyGrows(Take(w, steps[0]), steps[1..]);
    }
  }

  lemma {:induction false} NameStays(w: World, steps: seq<Step>)
    requires Legal(w, steps)
    ensures Run(w, steps).cm.name == w.cm.name
    decreases |steps|
  {
    if steps != [] {
      hide NameValidation;
      NameStays(Take(w, steps[0]), steps[1..]);
    }
  }

  // ---------------------------------------------------------------- rollback

  /** Asking for a recorded version and reconciling brings back what was recorded, after any
      run, unless that version is the current one and the ConfigMap has an edit that is not
      reconciled yet: then the edit wins and becomes a new version. */
  lemma RollbackRestores(w: World, i: nat, steps: seq<Step>, e: Env)
    requires Inv(w) && i < |w.log| && AllNameChars(w.cm.name) && Legal(w, steps)
    requires Behaves(Run(w, steps), e)
    ensures var w1 := Run(w, steps);
            var asked := Take(w1, SetVersion(w.log[i].version));
            var pending := w1.currents == {i} && w1.cm.content != w.log[i].content;
            && Inv(asked)
            && var (w2, outcome) := Reconciled(asked, e);
            && outcome == Done
            && (w2.cm.content == w.log[i].content <==> !pending)
            && (!pending ==> VersionOf(w2.cm) == w.log[i].version && w2.currents == {i} && w2.log == w1.log)
            && (pending ==> w2.cm.content == w1.cm.content && w2.log == w1.log + [Entry(e.version, w1.cm.content)])
  {
    hide NameValidation;
    var w1 := Run(w, steps);
    RunKeepsInv(w, steps);
    LogOnlyGrows(w, steps);
    NameStays(w, steps);
    var v := w.log[i].version;
    assert w1.log[i] == w.log[i];
    assert HasVersion(w1.log, v) && IndexOf(w1.log, v) == i;
    var asked := Take(w1, SetVersion(v));
    assert VersionOf(asked.cm) == v && asked.cm.annotations != map[];
  }

  // ---------------------------------------------------------------- quiescence

  /** A second reconcile right after the first writes nothing, except where the first had to
      commit without an annotation map and panicked: then it writes the missing annotations
      once and the third one is quiet. */
  lemma Quiescence(w: World, e1: Env, e2: Env, e3: Env)
    requires Inv(w) && Behaves(w, e1) && Behaves(Reconciled(w, e1).0, e2)
    requires e3.interference <= 5 && !e3.createFails && e3.foreign == Nothing
    ensures Inv(Reconciled(w, e1).0)
    ensures var (w1, o1) := Reconciled(w, e1);
            var (w2, o2) := Reconciled(w1, e2);
            var unannotated := Commits(w) && w.cm.annotations == map[];
            && (w2 == w1 <==> !unannotated)
            && (unannotated ==> o1 == Panic && o2 == Done && w2.writes == w1.writes + 1
                                && Tracked(w2) && Reconciled(w2, e3) == (w2, Done))
  {
    hide NameValidation;
    StepKeepsInv(w, Reconcile(e1));
    ReconcileSyncs(w, e1);
    var (w1, o1) := Reconciled(w, e1);
    ReconcileSyncs(w1, e2);
    if o1 == Panic {
      assert w1.cm == w.cm && w1.log[|w.log|] == Entry(e1.version, w.cm.content);
    }
  }

  // ---------------------------------------------------------------- the limits of the environment

  /** Five write conflicts in a row are survived, six leave two latest marks. */
  lemma InterferenceLimit(w: World, e: Env)
    requires Inv(w) && Commits(w) && Fresh(w, e) && !e.createFails
    ensures var w' := Reconciled(w, e).0;
            && (Inv(w') <==> e.interference <= 5)
            && (e.interference > 5 ==> w'.latests == {|w.log| - 1, |w.log|})
  {
    hide NameValidation;
    if e.interference <= 5 {
      CommitKeepsInv(w, e);
    } else {
      assert |w.log| - 1 in CommitNew(w, e).0.latests && |w.log| in CommitNew(w, e).0.latests;
    }
  }

  /** When the new snapshot cannot be created, the marks are put back exactly if current and
      latest were different snapshots; if they were the same one it ends up with neither. */
  lemma CreateFailure(w: World, e: Env)
    requires Inv(w) && Commits(w) && e.interference <= 5 && e.createFails
    ensures var (w', outcome) := Reconciled(w, e);
            && outcome == Error && w'.log == w.log && w'.cm == w.cm
            && (Inv(w') <==> w.currents != w.latests)
            && (if w.currents != w.latests then w'.currents == w.currents && w'.latests == w.latests
                else w'.currents == {} && w'.latests == {})
  {
    hide NameValidation;
  }

  /** The only thing a foreign snapshot can do to the marks is to take the current one away;
      it happens exactly if a rollback ends there and the snapshot has labels, and by
      LostMarkIsFinal the ConfigMap is not versioned any more until its annotation goes. */
  lemma ForeignSnapshot(w: World, e: Env)
    requires Inv(w) && Fresh(w, e) && e.interference <= 5 && !e.createFails
    ensures var (w', outcome) := Reconciled(w, e);
            && (Inv(w') <==> !(TakesForeign(w, e) && e.foreign.labelled))
            && (!TakesForeign(w, e) ==> (w', outcome) == Reconciled(w, e.(foreign := Nothing)))
            && (TakesForeign(w, e) ==>
                  && w'.cm == w.cm.(content := e.foreign.content) && VersionOf(w'.cm) != ""
                  && w'.log == w.log && w'.latests == w.latests
                  && (if e.foreign.labelled then outcome == Done && w'.currents == {}
                      else outcome == Panic && w'.currents == w.currents))
  {
    hide NameValidation;
    if !TakesForeign(w, e) {
      assert Reconciled(w, e) == Reconciled(w, e.(foreign := Nothing));
      StepKeepsInv(w, Reconcile(e.(foreign := Nothing)));
    }
  }

  /** After the step the ConfigMap still names a version if it did before. */
  predicate KeepsNaming(s: Step) {
    match s
    case SetVersion(version) => version != ""
    case Annotate(key, value) => key != VERSION || value != ""
    case _ => s.Edit? || s.Reconcile?
  }

  /** Without a current mark a ConfigMap that names a version is never versioned again, whatever
      is edited and whatever version is named, until the user removes the annotation. */
  lemma {:induction false} LostMarkIsFinal(w: World, steps: seq<Step>)
    requires w.currents == {} && VersionOf(w.cm) != "" && Legal(w, steps)
    requires forall i :: 0 <= i < |steps| ==> KeepsNaming(steps[i])
    ensures var w' := Run(w, steps);
            w'.log == w.log && w'.currents == {} && w'.writes == w.writes && VersionOf(w'.cm) != ""
    decreases |steps|
  {
    if steps != [] {
      assert KeepsNaming(steps[0]);
      var w1 := Take(w, steps[0]);
      assert VersionOf(w1.cm) != "";
      LostMarkIsFinal(w1, steps[1..]);
    }
  }
}
