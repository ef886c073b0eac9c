/**
 What the Build defaulting and validation promise, stated over the model in
 BuildValidation and proved.
 */
module BuildProperties {
  import opened Wrappers
  import opened FieldErrors
  import opened BuildValidation

  // ---------------------------------------------------------------------------
  // Defaulting

  /** Defaulting twice is defaulting once. */
  lemma DefaultedIdempotent(s: BuildSpec)
    ensures Defaulted(Defaulted(s)) == Defaulted(s)
  {
  }

  /** Outside an update no check reads the service account, so defaulting it cannot add or remove an error. */
  lemma ServiceAccountInvisibleOnCreate(s: BuildSpec, account: string, ext: Collaborators)
    ensures ValidateSpec(s.(serviceAccount := account), Create, ext) == ValidateSpec(s, Create, ext)
    ensures ValidateSpec(Defaulted(s), Create, ext) == ValidateSpec(s, Create, ext)
  {
  }

  // ---------------------------------------------------------------------------
  // The shape of the spec report

  /** No short-circuit: every entry any check produces is in the spec report, whatever the other checks found. */
  lemma EveryCheckReported(spec: BuildSpec, op: Operation, ext: Collaborators, k: nat, e: FieldError)
    requires k < 9 && e in SpecChecks(spec, op, ext)[k]
    ensures e in ValidateSpec(spec, op, ext)
  {
    ConcatContains(SpecChecks(spec, op, ext), k, e);
  }

  /** The spec report is nil exactly when each of the nine checks, before scoping, is nil. */
  lemma ValidateSpecEmptyIff(spec: BuildSpec, op: Operation, ext: Collaborators)
    ensures ValidateSpec(spec, op, ext) == [] <==>
      && spec.tags != []
      && ext.tags(spec.tags) == []
      && ValidateCache(spec.cache) == []
      && ext.builder(op, spec.builder) == []
      && ext.source(op, spec.source) == []
      && ext.bindings(op, spec.bindings) == []
      && ValidateLastBuild(spec.lastBuild, ext.image) == []
      && ValidateImmutableFields(spec, op, ext.shortDiff) == []
      && ValidateNodeSelector(spec.nodeSelector, ext.osLabel) == []
  {
    ConcatEmptyIff(SpecChecks(spec, op, ext));
  }

  // ---------------------------------------------------------------------------
  // Build.Validate

  /** A Build is admitted exactly when each of the nine checks on its spec is nil. */
  lemma BuildValidIff(b: Build, op: Operation, ext: Collaborators)
    ensures b.Validate(op, ext) == [] <==>
      && b.spec.tags != []
      && ext.tags(b.spec.tags) == []
      && ValidateCache(b.spec.cache) == []
      && ext.builder(op, b.spec.builder) == []
      && ext.source(op, b.spec.source) == []
      && ext.bindings(op, b.spec.bindings) == []
      && ValidateLastBuild(b.spec.lastBuild, ext.image) == []
      && ValidateImmutableFields(b.spec, op, ext.shortDiff) == []
      && ValidateNodeSelector(b.spec.nodeSelector, ext.osLabel) == []
  {
    ValidateSpecEmptyIff(b.spec, op, ext);
  }

  /** Empty tags always give, first in the report, a missing-field error on spec.tags. */
  lemma EmptyTagsReported(b: Build, op: Operation, ext: Collaborators)
    requires b.spec.tags == []
    ensures b.Validate(op, ext) != []
    ensures b.Validate(op, ext)[0] == FieldError(Text(MissingFieldMessage), [["spec", "tags"]], "")
    ensures Dotted(b.Validate(op, ext)[0].paths[0]) == "spec.tags"
  {
    var r := ValidateSpec(b.spec, op, ext);
    assert r[0] == ErrMissingField("tags");
    var e := b.Validate(op, ext)[0];
    assert e == ScopeEntry("spec", r[0]);
    assert e.paths[0] == ["spec", "tags"];
  }

  /** Whatever a check reports reaches the Build report, re-scoped under "spec". */
  lemma ReachesBuildReport(b: Build, op: Operation, ext: Collaborators, k: nat, e: FieldError)
    requires k < 9 && e in SpecChecks(b.spec, op, ext)[k]
    ensures ScopeEntry("spec", e) in b.Validate(op, ext)
  {
    EveryCheckReported(b.spec, op, ext, k, e);
    ViaFieldKeeps("spec", ValidateSpec(b.spec, op, ext), e);
  }

  /** The cache conflict, scoped under "cache", names cache.volume and cache.registry. */
  lemma CacheConflictScoped(c: Option<CacheConfig>)
    requires c.Some? && c.value.volume.Some? && c.value.registry.Some?
    ensures ViaField("cache", ValidateCache(c)) ==
      [FieldError(Text(OnlyOneCacheMessage), [["cache", "volume"], ["cache", "registry"]], "")]
  {
    ScopeTwoPaths("cache", Text(OnlyOneCacheMessage), ["volume"], ["registry"], "");
    assert ["cache"] + ["volume"] == ["cache", "volume"];
    assert ["cache"] + ["registry"] == ["cache", "registry"];
  }

  /** A cache with both variants contributes exactly one error, at spec.cache.volume and spec.cache.registry. */
  lemma CacheConflictReported(b: Build, op: Operation, ext: Collaborators)
    requires b.spec.cache.Some? && b.spec.cache.value.volume.Some? && b.spec.cache.value.registry.Some?
    ensures SpecChecks(b.spec, op, ext)[2] ==
      [FieldError(Text(OnlyOneCacheMessage), [["cache", "volume"], ["cache", "registry"]], "")]
    ensures FieldError(Text(OnlyOneCacheMessage), [["spec", "cache", "volume"], ["spec", "cache", "registry"]], "")
      in b.Validate(op, ext)
  {
    CacheConflictScoped(b.spec.cache);
    var e := FieldError(Text(OnlyOneCacheMessage), [["cache", "volume"], ["cache", "registry"]], "");
    ReachesBuildReport(b, op, ext, 2, e);
    ScopeTwoPaths("spec", Text(OnlyOneCacheMessage), ["cache", "volume"], ["cache", "registry"], "");
    assert ["spec"] + ["cache", "volume"] == ["spec", "cache", "volume"];
    assert ["spec"] + ["cache", "registry"] == ["spec", "cache", "registry"];
  }

  /** The Build report's cache-conflict entry, as rendered: spec.cache.volume and spec.cache.registry. */
  lemma CacheConflictRendered(b: Build, op: Operation, ext: Collaborators)
    requires b.spec.cache.Some? && b.spec.cache.value.volume.Some? && b.spec.cache.value.registry.Some?
    ensures exists e :: (e in b.Validate(op, ext) && e.message == Text(OnlyOneCacheMessage) && |e.paths| == 2 &&
      Dotted(e.paths[0]) == "spec.cache.volume" && Dotted(e.paths[1]) == "spec.cache.registry")
  {
    CacheConflictReported(b, op, ext);
    CachePathsRendered();
    var e := FieldError(Text(OnlyOneCacheMessage), [["spec", "cache", "volume"], ["spec", "cache", "registry"]], "");
    assert e in b.Validate(op, ext);
  }

  /** The two paths of the cache conflict, joined with '.'. */
  lemma CachePathsRendered()
    ensures Dotted(["spec", "cache", "volume"]) == "spec.cache.volume"
    ensures Dotted(["spec", "cache", "registry"]) == "spec.cache.registry"
  {
    DottedThree("spec", "cache", "volume");
    DottedThree("spec", "cache", "registry");
  }

  /** A nil cache, or one with a single variant, contributes nothing. */
  lemma SingleCacheVariantAccepted(b: Build, op: Operation, ext: Collaborators)
    requires b.spec.cache.None? || b.spec.cache.value.volume.None? || b.spec.cache.value.registry.None?
    ensures SpecChecks(b.spec, op, ext)[2] == []
  {
  }

  /** The field name check k (2 to 6) is scoped under in BuildSpec.Validate. */
  function ScopedField(k: nat): (f: string)
    requires 2 <= k <= 6
  {
    ["cache", "builder", "source", "bindings", "lastBuild"][k - 2]
  }

  /** Every path an entry of check k (cache, builder, source, bindings, lastBuild) reports starts with that check's field name. */
  lemma SubObjectErrorsScopedInSpec(spec: BuildSpec, op: Operation, ext: Collaborators, k: nat, e: FieldError)
    requires 2 <= k <= 6 && e in SpecChecks(spec, op, ext)[k]
    ensures forall j :: 0 <= j < |e.paths| ==> |e.paths[j]| >= 1 && e.paths[j][0] == ScopedField(k)
  {
    if k == 2 {
      InScope("cache", ValidateCache(spec.cache), e);
    } else if k == 3 {
      InScope("builder", ext.builder(op, spec.builder), e);
    } else if k == 4 {
      InScope("source", ext.source(op, spec.source), e);
    } else if k == 5 {
      InScope("bindings", ext.bindings(op, spec.bindings), e);
    } else {
      InScope("lastBuild", ValidateLastBuild(spec.lastBuild, ext.image), e);
    }
  }

  /** In the Build report the sub-object errors sit under spec.<field>: cache, builder, source, bindings or lastBuild. */
  lemma SubObjectErrorsScoped(b: Build, op: Operation, ext: Collaborators, k: nat, e: FieldError)
    requires 2 <= k <= 6 && e in SpecChecks(b.spec, op, ext)[k]
    ensures ScopeEntry("spec", e) in b.Validate(op, ext)
    ensures forall j :: 0 <= j < |e.paths| ==>
      var p := ScopeEntry("spec", e).paths[j]; |p| >= 2 && p[0] == "spec" && p[1] == ScopedField(k)
  {
    ReachesBuildReport(b, op, ext, k, e);
    SubObjectErrorsScopedInSpec(b.spec, op, ext, k, e);
  }

  // ---------------------------------------------------------------------------
  // Node selector

  /** Removing the OS label from the selector, other keys unchanged, removes the error. */
  lemma RemovingOsLabelClearsError(nodeSelector: map<string, string>, osLabel: string)
    ensures ValidateNodeSelector(nodeSelector - {osLabel}, osLabel) == []
  {
  }

  /** The node-selector check sees only whether the OS label is a key: values and other keys do not matter. */
  lemma NodeSelectorSeesOnlyOsLabel(a: map<string, string>, b: map<string, string>, osLabel: string)
    requires osLabel in a <==> osLabel in b
    ensures ValidateNodeSelector(a, osLabel) == ValidateNodeSelector(b, osLabel)
  {
  }

  /** A selector naming the OS label makes the last entry of the Build report an invalid-key error on spec.nodeSelector. */
  lemma OsLabelReported(b: Build, op: Operation, ext: Collaborators)
    requires ext.osLabel in b.spec.nodeSelector
    ensures var r := b.Validate(op, ext);
      r != [] && r[|r| - 1] == FieldError(InvalidKeyName(ext.osLabel), [["spec", "nodeSelector"]], OsDeterminedAutomatically)
  {
    var spec := ValidateSpec(b.spec, op, ext);
    var n := ValidateNodeSelector(b.spec.nodeSelector, ext.osLabel);
    assert spec[|spec| - 1] == n[0];
    var r := b.Validate(op, ext);
    assert r[|r| - 1] == ScopeEntry("spec", n[0]);
    ScopeOnePath("spec", InvalidKeyName(ext.osLabel), ["nodeSelector"], OsDeterminedAutomatically);
    assert ["spec"] + ["nodeSelector"] == ["spec", "nodeSelector"];
  }

  // ---------------------------------------------------------------------------
  // Immutability

  /** With a sound diff that succeeds, an update is rejected exactly when the spec changed, by exactly one immutable-fields error carrying the diff. */
  lemma ImmutabilityIsSpecEquality(spec: BuildSpec, baseline: BuildSpec, ext: Collaborators)
    requires DiffSound(ext.shortDiff) && ext.shortDiff(baseline, spec).Diff?
    ensures ValidateImmutableFields(spec, Update(baseline), ext.shortDiff) == [] <==> baseline == spec
    ensures baseline != spec ==>
      ext.shortDiff(baseline, spec).text != "" &&
      ValidateImmutableFields(spec, Update(baseline), ext.shortDiff) ==
        [FieldError(Text(ImmutableFieldsMessage), [["spec"]], ext.shortDiff(baseline, spec).text)]
  {
  }

  /** A failing diff is never taken as "unchanged": it is one validation error on spec carrying the failure. */
  lemma DiffFailureReported(b: Build, baseline: BuildSpec, ext: Collaborators)
    requires ext.shortDiff(baseline, b.spec).DiffError?
    ensures FieldError(Text(DiffFailedMessage), [["spec", "spec"]], ext.shortDiff(baseline, b.spec).message)
      in b.Validate(Update(baseline), ext)
  {
    var e := FieldError(Text(DiffFailedMessage), [["spec"]], ext.shortDiff(baseline, b.spec).message);
    ReachesBuildReport(b, Update(baseline), ext, 7, e);
    ScopeOnePath("spec", e.message, ["spec"], e.details);
    assert ["spec"] + ["spec"] == ["spec", "spec"];
  }

  /**
   A changed spec on update is rejected in the Build report. The entry's path
   is "spec" from validateImmutableFields, under the "spec" that Build.Validate
   adds: spec.spec.
   */
  lemma ChangedSpecRejected(b: Build, baseline: BuildSpec, ext: Collaborators)
    requires DiffSound(ext.shortDiff) && ext.shortDiff(baseline, b.spec).Diff? && baseline != b.spec
    ensures FieldError(Text(ImmutableFieldsMessage), [["spec", "spec"]], ext.shortDiff(baseline, b.spec).text)
      in b.Validate(Update(baseline), ext)
  {
    ImmutabilityIsSpecEquality(b.spec, baseline, ext);
    var e := FieldError(Text(ImmutableFieldsMessage), [["spec"]], ext.shortDiff(baseline, b.spec).text);
    ReachesBuildReport(b, Update(baseline), ext, 7, e);
    ScopeOnePath("spec", e.message, ["spec"], e.details);
    assert ["spec"] + ["spec"] == ["spec", "spec"];
  }

  /**
   A failing diff, or (with a sound diff) a changed spec, is reported on the
   path that renders as spec.spec: "Failed to diff Build" when the diff failed,
   the immutable-fields message otherwise.
   */
  lemma ImmutabilityErrorRendered(b: Build, baseline: BuildSpec, ext: Collaborators)
    requires ext.shortDiff(baseline, b.spec).DiffError? || (DiffSound(ext.shortDiff) && baseline != b.spec)
    ensures exists e :: (e in b.Validate(Update(baseline), ext) && |e.paths| == 1 && Dotted(e.paths[0]) == "spec.spec" &&
      e.message == if ext.shortDiff(baseline, b.spec).DiffError? then Text(DiffFailedMessage) else Text(ImmutableFieldsMessage))
  {
    var e;
    if ext.shortDiff(baseline, b.spec).DiffError? {
      DiffFailureReported(b, baseline, ext);
      e := FieldError(Text(DiffFailedMessage), [["spec", "spec"]], ext.shortDiff(baseline, b.spec).message);
    } else {
      ChangedSpecRejected(b, baseline, ext);
      e := FieldError(Text(ImmutableFieldsMessage), [["spec", "spec"]], ext.shortDiff(baseline, b.spec).text);
    }
    SpecSpecRendered();
    assert e.paths[0] == ["spec", "spec"];
  }

  /** The path of the immutability errors, joined with '.'. */
  lemma SpecSpecRendered()
    ensures Dotted(["spec", "spec"]) == "spec.spec"
  {
    assert ["spec", "spec"][1..] == ["spec"];
  }

  /** Adding a tag on update (["a"] to ["a", "b"]) is one immutable-fields error whose detail is the diff. */
  lemma AddedTagRejected(baseline: BuildSpec, ext: Collaborators)
    requires DiffSound(ext.shortDiff) && baseline.tags == ["a"]
    requires ext.shortDiff(baseline, baseline.(tags := ["a", "b"])).Diff?
    ensures var candidate := baseline.(tags := ["a", "b"]);
      ValidateImmutableFields(candidate, Update(baseline), ext.shortDiff) ==
        [FieldError(Text(ImmutableFieldsMessage), [["spec"]], ext.shortDiff(baseline, candidate).text)]
  {
  }
}
