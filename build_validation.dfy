/**
 Admission-time defaulting and validation of a kpack v1alpha2 Build
 (pkg/apis/build/v1alpha2/build_validation.go).

 The Go code reads the operation kind and the stored object from a
 `context.Context`; here they are an explicit `Operation` value. The validators
 it calls in other packages, the structural diff and the OS label constant are
 collected in a `Collaborators` value that every check receives as a parameter.
 */
module BuildValidation {
  import opened Wrappers
  import opened FieldErrors

  // ---------------------------------------------------------------------------
  // Data model

  /** A persistent-volume cache (BuildPersistentVolumeCache): the claim to mount. */
  datatype VolumeCache = VolumeCache(claimName: string)

  /** A registry cache (RegistryCache): the image tag the cache is kept under. */
  datatype RegistryCache = RegistryCache(tag: string)

  /** BuildCacheConfig: two optional variants, of which at most one may be set. */
  datatype CacheConfig = CacheConfig(volume: Option<VolumeCache>, registry: Option<RegistryCache>)

  /** LastBuild: the image the previous build of the same Image produced. */
  datatype LastBuild = LastBuild(image: string)

  /** The builder reference. Its fields belong to a package that is not part of this model: only equality and the builder validator see it. */
  datatype BuilderSpec = BuilderSpec(descriptor: string)

  /** The source configuration, opaque to this core in the same way. */
  datatype SourceConfig = SourceConfig(descriptor: string)

  /** One service binding, opaque to this core in the same way. */
  datatype Binding = Binding(descriptor: string)

  /** BuildSpec, with the fields this core reads. */
  datatype BuildSpec = BuildSpec(
    tags: seq<string>,
    builder: BuilderSpec,
    serviceAccount: string,
    source: SourceConfig,
    cache: Option<CacheConfig>,
    bindings: seq<Binding>,
    lastBuild: Option<LastBuild>,
    nodeSelector: map<string, string>)

  /** The admission context: an update carries the spec of the stored (baseline) Build; every other operation is `Create`. */
  datatype Operation = Create | Update(baseline: BuildSpec)

  /** What kmp.ShortDiff returns: a diff text ("" when nothing differs) or the error it failed with. */
  datatype DiffResult = Diff(text: string) | DiffError(message: string)

  /**
   The code this core calls but does not contain: validate.Tags, validate.Image,
   the Validate methods of the builder, source and bindings, kmp.ShortDiff and
   the OS node-selector label k8sOSLabel.
   */
  datatype Collaborators = Collaborators(
    osLabel: string,
    tags: seq<string> -> Report,
    image: string -> Report,
    builder: (Operation, BuilderSpec) -> Report,
    source: (Operation, SourceConfig) -> Report,
    bindings: (Operation, seq<Binding>) -> Report,
    shortDiff: (BuildSpec, BuildSpec) -> DiffResult)

  /** The contract the structural diff keeps: when it succeeds, its text is empty exactly when the two specs are equal. */
  ghost predicate DiffSound(shortDiff: (BuildSpec, BuildSpec) -> DiffResult)
  {
    forall before, after :: shortDiff(before, after).Diff? ==> (shortDiff(before, after).text == "" <==> before == after)
  }

  const DefaultServiceAccount := "default"
  const OnlyOneCacheMessage := "only one type of cache can be specified"
  const DiffFailedMessage := "Failed to diff Build"
  const ImmutableFieldsMessage := "Immutable fields changed (-old +new)"
  const OsDeterminedAutomatically := "os is determined automatically"

  // ---------------------------------------------------------------------------
  // Defaulting

  /** The spec after SetDefaults: an empty service account becomes "default"; nothing else changes. */
  function Defaulted(s: BuildSpec): (r: BuildSpec)
    ensures r.serviceAccount != ""
    ensures s.serviceAccount == "" ==> r.serviceAccount == DefaultServiceAccount
    ensures s.serviceAccount != "" ==> r == s
    ensures r.(serviceAccount := s.serviceAccount) == s
  {
    if s.serviceAccount == "" then s.(serviceAccount := DefaultServiceAccount) else s
  }

  // ---------------------------------------------------------------------------
  // Validation

  /** validate.ListNotEmpty: a missing-field error on `field` when the list is empty, nil otherwise. */
  function ListNotEmpty(value: seq<string>, field: string): (r: Report)
    ensures r == [] <==> value != []
    ensures value == [] ==> r == [ErrMissingField(field)]
  {
    if |value| == 0 then [ErrMissingField(field)] else []
  }

  /** BuildCacheConfig.Validate: a nil config is valid; both variants set is one generic error on volume and registry. */
  function ValidateCache(c: Option<CacheConfig>): (r: Report)
    ensures r != [] <==> c.Some? && c.value.volume.Some? && c.value.registry.Some?
    ensures r != [] ==> r == [FieldError(Text(OnlyOneCacheMessage), [["volume"], ["registry"]], "")]
  {
    if c.Some? && c.value.volume.Some? && c.value.registry.Some? then
      [ErrGeneric(OnlyOneCacheMessage, [["volume"], ["registry"]])]
    else
      []
  }

  /** LastBuild.Validate: nothing to check without a last build or without its image; otherwise the image validator decides. */
  function ValidateLastBuild(lb: Option<LastBuild>, image: string -> Report): (r: Report)
    ensures lb.None? || lb.value.image == "" ==> r == []
    ensures lb.Some? && lb.value.image != "" ==> r == image(lb.value.image)
  {
    if lb.None? || lb.value.image == "" then [] else image(lb.value.image)
  }

  /** validateImmutableFields: on update, the whole spec must equal the baseline spec. */
  function ValidateImmutableFields(spec: BuildSpec, op: Operation, shortDiff: (BuildSpec, BuildSpec) -> DiffResult): (r: Report)
    ensures op.Create? ==> r == []
    ensures op.Update? && shortDiff(op.baseline, spec).DiffError? ==>
      r == [FieldError(Text(DiffFailedMessage), [["spec"]], shortDiff(op.baseline, spec).message)]
    ensures op.Update? && shortDiff(op.baseline, spec).Diff? ==>
      var d := shortDiff(op.baseline, spec).text;
      r == if d == "" then [] else [FieldError(Text(ImmutableFieldsMessage), [["spec"]], d)]
    ensures |r| <= 1
  {
    match op
    case Create => []
    case Update(baseline) =>
      match shortDiff(baseline, spec)
      case DiffError(message) => [FieldError(Text(DiffFailedMessage), [["spec"]], message)]
      case Diff(d) => if d != "" then [FieldError(Text(ImmutableFieldsMessage), [["spec"]], d)] else []
  }

  /** validateNodeSelector: the OS label is computed, so a selector that names it is rejected. */
  function ValidateNodeSelector(nodeSelector: map<string, string>, osLabel: string): (r: Report)
    ensures |nodeSelector| == 0 ==> r == []
    ensures r != [] <==> osLabel in nodeSelector
    ensures osLabel in nodeSelector ==>
      r == [FieldError(InvalidKeyName(osLabel), [["nodeSelector"]], OsDeterminedAutomatically)]
  {
    if |nodeSelector| == 0 then []
    else if osLabel in nodeSelector then [ErrInvalidKeyName(osLabel, "nodeSelector", OsDeterminedAutomatically)]
    else []
  }

  /** The nine checks of BuildSpec.Validate, each report already scoped as in the chain, listed in the chain's order. */
  function SpecChecks(spec: BuildSpec, op: Operation, ext: Collaborators): (rs: seq<Report>)
    ensures |rs| == 9
  {
    [ ListNotEmpty(spec.tags, "tags"),
      ext.tags(spec.tags),
      ViaField("cache", ValidateCache(spec.cache)),
      ViaField("builder", ext.builder(op, spec.builder)),
      ViaField("source", ext.source(op, spec.source)),
      ViaField("bindings", ext.bindings(op, spec.bindings)),
      ViaField("lastBuild", ValidateLastBuild(spec.lastBuild, ext.image)),
      ValidateImmutableFields(spec, op, ext.shortDiff),
      ValidateNodeSelector(spec.nodeSelector, ext.osLabel) ]
  }

  /**
   BuildSpec.Validate: every check runs, and their reports are chained with Also
   in this order: tags present, tag syntax, cache, builder, source, bindings,
   last build, immutability, node selector.
   */
  function ValidateSpec(spec: BuildSpec, op: Operation, ext: Collaborators): (r: Report)
    ensures var rs := SpecChecks(spec, op, ext);
      r == rs[0] + rs[1] + rs[2] + rs[3] + rs[4] + rs[5] + rs[6] + rs[7] + rs[8]
  {
    ConcatNine(SpecChecks(spec, op, ext));
    Concat(SpecChecks(spec, op, ext))
  }

  // ---------------------------------------------------------------------------
  // The Build object

  /** A Build: the object the admission webhook defaults in place and then validates. */
  class Build {
    var spec: BuildSpec

    constructor (spec: BuildSpec)
      ensures this.spec == spec
    {
      this.spec := spec;
    }

    /** SetDefaults: fills an empty service account with "default", in place. */
    method SetDefaults()
      modifies this
      ensures spec == Defaulted(old(spec))
      ensures old(spec.serviceAccount) == "" ==> spec.serviceAccount == DefaultServiceAccount
      ensures old(spec.serviceAccount) != "" ==> spec == old(spec)
    {
      if spec.serviceAccount == "" {
        spec := spec.(serviceAccount := DefaultServiceAccount);
      }
    }

    /** Build.Validate: the spec's report, every path scoped under "spec". */
    function Validate(op: Operation, ext: Collaborators): (r: Report)
      reads this
      ensures r == [] <==> ValidateSpec(spec, op, ext) == []
      ensures |r| == |ValidateSpec(spec, op, ext)|
      ensures forall i, j :: 0 <= i < |r| && 0 <= j < |r[i].paths| ==>
        |r[i].paths[j]| >= 1 && r[i].paths[j][0] == "spec"
    {
      ViaField("spec", ValidateSpec(spec, op, ext))
    }
  }
}
