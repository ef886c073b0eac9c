# kpack Build admission: defaulting and validation

This project models how kpack admits a `Build` (API version v1alpha2) into the
cluster, and proves properties of that model in Dafny. Two steps are modelled:

- **Defaulting.** `SetDefaults` fills an empty service account with `"default"`.
  It changes the Build in place.
- **Validation.** `Validate` returns one error report for the whole Build.
  It runs every check on the spec, never stops at the first failure, and scopes
  each error under the field it concerns.

The checks are:

- tags must be present and well-formed;
- a cache config may set a volume or a registry, never both;
- the builder, source and bindings sub-objects are checked by their own validators;
- the last build's image is checked only when one is given;
- on an update, the whole spec must equal the stored spec;
- the node selector must not name the OS label, which kpack sets itself.

The error report models knative's `apis.FieldError`. It is a list of entries.
Each entry has a message, a list of field paths and a detail text. A path is a
list of segments, so `["spec", "cache", "volume"]` renders as `spec.cache.volume`.
`Also` is list concatenation, and `Concat` is a chain of `Also` calls over a list
of reports, merged left to right. `ViaField(f)` puts `f` in front of every path of
every entry.

Files:

- `wrappers.dfy`: module `Wrappers`, an `Option` type for Go pointers that may be nil.
- `field_errors.dfy`: module `FieldErrors`. It holds the report, the error
  constructors (`ErrMissingField`, `ErrGeneric`, `ErrInvalidKeyName`), `ViaField`,
  path rendering, the `Also` chain `Concat`, and the lemmas about re-scoping and
  chaining.
- `build_validation.dfy`: module `BuildValidation`. It holds the data model, the
  five checks, the spec validation and the `Build` class with `SetDefaults` and
  `Validate`.
- `build_properties.dfy`: module `BuildProperties`. It holds the lemmas about the
  whole pipeline.

The Go code reads two things from a `context.Context`: whether the operation is
an update (`apis.IsInUpdate`), and the stored object (`apis.GetBaseline`). Here an
explicit `Operation` value replaces both: `Create`, or `Update(baseline)` holding
the stored spec. Code that lives in other packages is gathered in one
`Collaborators` parameter of function values. That code is the validators
`validate.Tags` and `validate.Image`, the `Validate` methods of the builder,
source and bindings, the diff `kmp.ShortDiff`, and the OS label `k8sOSLabel`.
The diff is an oracle: it returns `Diff(text)` or `DiffError(message)`.
`DiffSound` is the property the immutability lemmas assume of it: a diff that
succeeds is empty exactly when the two specs are equal.

One consequence of the code as written is proved rather than assumed.
`validateImmutableFields` reports on path `spec`, and `Build.Validate` then
scopes the whole spec report under `spec`. So an immutable-fields or
diff-failure error reaches the caller on path `spec.spec` (`ChangedSpecRejected`,
`DiffFailureReported`, `ImmutabilityErrorRendered`).

`validate.ListNotEmpty` lives in a package that is not part of this model. The
model gives it the behaviour its name and its use on line 23 require: an
`ErrMissingField` entry ("missing field(s)") on the named field when the list
is empty, and nothing otherwise. The "empty tags" properties rest on this
definition.

## Model

| member | source | states |
|---|---|---|
| `FieldErrors.ErrMissingField` | pkg/apis/build/v1alpha2/build_validation.go:23 | `apis.ErrMissingField`, as `ListNotEmpty` uses it: one entry with "missing field(s)" on the one given path, with no details. It has no ensures; `ListNotEmpty` and `EmptyTagsReported` state what it gives. |
| `FieldErrors.ErrGeneric` | pkg/apis/build/v1alpha2/build_validation.go:78 | `apis.ErrGeneric`: one entry with the diagnostic on the given paths, with no details. It has no ensures; `ValidateCache` and `CacheConflictScoped` state what it gives. |
| `FieldErrors.ErrInvalidKeyName` | pkg/apis/build/v1alpha2/build_validation.go:62 | `apis.ErrInvalidKeyName`: one invalid-key entry quoting the key, on the one given path, with the given details. It has no ensures; `ValidateNodeSelector` and `OsLabelReported` state what it gives. |
| `FieldErrors.Dotted` | pkg/apis/build/v1alpha2/build_validation.go:19 | The rendering of a path: its segments joined with `.`. It has no ensures; `EmptyTagsReported`, `CacheConflictRendered` and `ImmutabilityErrorRendered` state the rendered paths of Build-report entries. |
| `FieldErrors.Concat` | pkg/apis/build/v1alpha2/build_validation.go:23-31 | A chain of `Also` calls over a list of reports, merged from left to right. It has no ensures; `ConcatEmptyIff`, `ConcatContains` and `ConcatNine` state its properties. |
| `FieldErrors.ScopeEntry` | pkg/apis/build/v1alpha2/build_validation.go:25 | Re-scoping one entry keeps its message and details. It keeps the number of paths, and puts the prefix in front of each path. |
| `FieldErrors.ViaField` | pkg/apis/build/v1alpha2/build_validation.go:25-29 | `ViaField` keeps the number of entries. Entry i of the result is entry i of the input re-scoped under the prefix, so a nil report stays nil. |
| `FieldErrors.ViaFieldAlso` | pkg/apis/build/v1alpha2/build_validation.go:23-31 | Re-scoping a merged report gives the same result as merging the re-scoped reports. |
| `FieldErrors.ViaFieldNested` | pkg/apis/build/v1alpha2/build_validation.go:19 | Re-scoping twice puts the outer segment first, then the inner one. Messages and details are kept. |
| `FieldErrors.ViaFieldKeeps` | pkg/apis/build/v1alpha2/build_validation.go:19 | Every entry of a report appears, re-scoped, in the re-scoped report. |
| `FieldErrors.ConcatEmptyIff` | pkg/apis/build/v1alpha2/build_validation.go:23-31 | A chain of `Also` calls is nil exactly when every report in it is nil. |
| `FieldErrors.ConcatContains` | pkg/apis/build/v1alpha2/build_validation.go:23-31 | No short-circuit: every entry of every report in a chain is in the merged report. |
| `FieldErrors.ConcatNine` | pkg/apis/build/v1alpha2/build_validation.go:23-31 | A chain of nine reports is the nine reports merged with `Also` from left to right, in list order. |
| `FieldErrors.InScope` | pkg/apis/build/v1alpha2/build_validation.go:25-29 | Every path of every entry of a re-scoped report starts with the prefix. |
| `BuildValidation.DiffSound` | pkg/apis/build/v1alpha2/build_validation.go:40 | The property assumed of `kmp.ShortDiff`: a diff that succeeds is empty exactly when the two specs are equal. It is a predicate with no ensures; `ImmutabilityIsSpecEquality`, `ChangedSpecRejected`, `ImmutabilityErrorRendered` and `AddedTagRejected` assume it. |
| `BuildValidation.Defaulted` | pkg/apis/build/v1alpha2/build_validation.go:12-16 | After defaulting, the service account is never empty. An empty one becomes "default", a set one is kept, and no other field changes. |
| `BuildValidation.Build.SetDefaults` | pkg/apis/build/v1alpha2/build_validation.go:12-16 | The in-place update. The new spec is `Defaulted` of the old spec: "default" exactly when the account was empty, and the spec is unchanged otherwise. |
| `BuildValidation.ListNotEmpty` | pkg/apis/build/v1alpha2/build_validation.go:23 | Nil exactly when the list is non-empty. An empty list gives exactly one missing-field entry on the named field. |
| `BuildValidation.ValidateCache` | pkg/apis/build/v1alpha2/build_validation.go:76-81 | Gives an error exactly when the config is present and sets both volume and registry. The error is exactly one generic entry on paths `volume` and `registry`. |
| `BuildValidation.ValidateLastBuild` | pkg/apis/build/v1alpha2/build_validation.go:68-74 | Nil when the last build is absent or its image is empty. Otherwise it is exactly the image validator's report for that image. |
| `BuildValidation.ValidateImmutableFields` | pkg/apis/build/v1alpha2/build_validation.go:34-54 | Nil outside an update. On update (baseline first, candidate second), a failed diff gives one "Failed to diff Build" entry on `spec` with the failure as details. A non-empty diff gives one "Immutable fields changed (-old +new)" entry on `spec` with the diff as details. An empty diff gives nil. Never more than one entry. |
| `BuildValidation.ValidateNodeSelector` | pkg/apis/build/v1alpha2/build_validation.go:56-66 | Nil for an empty selector. Gives an error exactly when the OS label is a key. The error is one invalid-key entry naming that label, on `nodeSelector`, with "os is determined automatically" as details. |
| `BuildValidation.SpecChecks` | pkg/apis/build/v1alpha2/build_validation.go:22-32 | Spec validation runs exactly nine checks, each report scoped as in the chain. |
| `BuildValidation.ValidateSpec` | pkg/apis/build/v1alpha2/build_validation.go:22-32 | The spec report is the nine checks of `SpecChecks` merged with `Also` from left to right, in this order: tags present, tag syntax, cache, builder, source, bindings, last build, immutability, node selector. Each sub-object report is scoped under its field. |
| `BuildValidation.Build.Validate` | pkg/apis/build/v1alpha2/build_validation.go:18-20 | Has as many entries as the spec report, and is nil exactly when the spec report is nil. Every path of every entry starts with `spec`. |
| `BuildProperties.DefaultedIdempotent` | pkg/apis/build/v1alpha2/build_validation.go:12-16 | Defaulting twice gives the same spec as defaulting once. |
| `BuildProperties.ServiceAccountInvisibleOnCreate` | pkg/apis/build/v1alpha2/build_validation.go:22-32 | Outside an update, the spec report does not depend on the service account. So defaulting never adds or removes an error there. |
| `BuildProperties.EveryCheckReported` | pkg/apis/build/v1alpha2/build_validation.go:22-32 | No short-circuit: every entry of each of the nine checks is in the spec report, whatever the other checks return. |
| `BuildProperties.ValidateSpecEmptyIff` | pkg/apis/build/v1alpha2/build_validation.go:22-32 | The spec report is nil exactly when every check is nil: tags present, tag syntax, cache, builder, source, bindings, last build, immutability and node selector. |
| `BuildProperties.BuildValidIff` | pkg/apis/build/v1alpha2/build_validation.go:18-32 | The Build report is nil, so the Build is admitted, exactly when all nine checks on its spec are nil. |
| `BuildProperties.EmptyTagsReported` | pkg/apis/build/v1alpha2/build_validation.go:18-23 | Empty tags always make the first entry of the Build report a missing-field error on `spec.tags`. |
| `BuildProperties.ReachesBuildReport` | pkg/apis/build/v1alpha2/build_validation.go:18-32 | Every entry any check produces reaches the Build report, re-scoped under `spec`. |
| `BuildProperties.CacheConflictScoped` | pkg/apis/build/v1alpha2/build_validation.go:76-81 | With both variants set, the cache report scoped under `cache` is exactly one entry on `cache.volume` and `cache.registry`. |
| `BuildProperties.CacheConflictReported` | pkg/apis/build/v1alpha2/build_validation.go:18-25 | With both variants set, the cache check adds exactly one entry. The Build report holds the conflict on `spec.cache.volume` and `spec.cache.registry`. |
| `BuildProperties.CacheConflictRendered` | pkg/apis/build/v1alpha2/build_validation.go:18-25 | With both variants set, the Build report holds an "only one type of cache" entry with two paths that render as `spec.cache.volume` and `spec.cache.registry`. |
| `BuildProperties.SingleCacheVariantAccepted` | pkg/apis/build/v1alpha2/build_validation.go:76-81 | With no cache config, or with only one variant set, the cache check adds nothing. |
| `BuildProperties.SubObjectErrorsScopedInSpec` | pkg/apis/build/v1alpha2/build_validation.go:25-29 | Every path reported by the cache, builder, source, bindings or lastBuild check starts with that field's name. |
| `BuildProperties.SubObjectErrorsScoped` | pkg/apis/build/v1alpha2/build_validation.go:18-29 | In the Build report, those entries appear with paths that start with `spec` and the field's name. |
| `BuildProperties.RemovingOsLabelClearsError` | pkg/apis/build/v1alpha2/build_validation.go:56-66 | Removing the OS label from the selector, with the other keys unchanged, removes the error. |
| `BuildProperties.NodeSelectorSeesOnlyOsLabel` | pkg/apis/build/v1alpha2/build_validation.go:56-66 | Two selectors that agree on whether the OS label is a key get the same report. Values and other keys do not matter. |
| `BuildProperties.OsLabelReported` | pkg/apis/build/v1alpha2/build_validation.go:18-31 | A selector naming the OS label makes the last entry of the Build report an invalid-key error on `spec.nodeSelector`. |
| `BuildProperties.ImmutabilityIsSpecEquality` | pkg/apis/build/v1alpha2/build_validation.go:34-54 | On update, when the diff is sound and succeeds, the check is nil exactly when the baseline spec equals the candidate. When they differ, the diff is non-empty and the check is exactly one immutable-fields entry carrying it. |
| `BuildProperties.DiffFailureReported` | pkg/apis/build/v1alpha2/build_validation.go:39-45 | A failing diff is never read as "unchanged". The Build report then holds a "Failed to diff Build" entry on `spec.spec` carrying the failure. |
| `BuildProperties.ChangedSpecRejected` | pkg/apis/build/v1alpha2/build_validation.go:46-51 | On update with a changed spec, a sound diff that succeeds, the Build report holds the immutable-fields entry on `spec.spec` with the diff as details. |
| `BuildProperties.ImmutabilityErrorRendered` | pkg/apis/build/v1alpha2/build_validation.go:18-51 | On update, a failing diff, or a changed spec under a sound diff, puts into the Build report a one-path entry that renders as `spec.spec`. Its message is "Failed to diff Build" when the diff failed, and the immutable-fields message otherwise. |
| `BuildProperties.AddedTagRejected` | pkg/apis/build/v1alpha2/build_validation.go:46-51 | Changing the tags from ["a"] to ["a", "b"] on update gives exactly one immutable-fields entry whose details are the diff. |

## Left out

- Knative's path normalisation is left out. `ViaField` builds each new path with knative's `flatten`, which splits segments on `.`, drops empty segments and glues `[i]` index segments to the previous one. Here `ViaField` only puts the prefix in front, a path stays a list of segments, and `Dotted` joins them with `.`. The two agree when no segment contains a `.` or is empty, and no segment after the first is an index segment `[i]`. That holds for every segment this core writes.
- Knative's `Also` skips an empty `FieldError`, one with no message, no details, no paths and no nested errors. The model's `Also` is plain concatenation and keeps such an entry. So a collaborator that returns `[FieldError(Text(""), [], "")]` makes the model reject the Build, where knative would treat the report as nil and admit it. The validators this core writes never produce such an entry.
- Knative's message formatting is left out. This covers the `%q` quoting in "invalid key name", the error `Level`, `Error()` rendering and the merging and sorting of entries at rendering time. `Also` is plain concatenation.
- `validate.Tags` and `validate.Image` are uninterpreted function parameters. They check tag and image-reference syntax in a package that is not part of this model, and they return any report.
- The `Validate` methods of the builder, source and bindings are uninterpreted parameters too. Each one receives the operation and its sub-object.
- `BuilderSpec`, `SourceConfig` and `Binding` are opaque descriptors. Their Go types are declared in files that are not part of this model, and only equality and their validators look at them.
- `BuildSpec` carries only the fields this core reads. The other Go fields, such as environment and resources, are declared in a file that is not part of this model. The whole-spec equality therefore covers only the modelled fields.
- `kmp.ShortDiff`'s rendering is left out. It is a reflection-based diff, modelled as an oracle. Nothing is proved about the diff text beyond "empty iff equal" (under `DiffSound`), so the claim that the detail shows both the old and the new values is not modelled. `DiffSound` compares model values, where a nil and an empty node selector, tag list or binding list are the same value. `kmp.ShortDiff` tells them apart, so changing a nil node selector to `{}` is a non-empty diff in Go but equal specs here.
- `apis.GetBaseline(ctx).(*Build)` panics when the stored object is not a `*Build`. An update here always carries a baseline spec, so that panic cannot arise in the model.
- The `ctx` argument of `SetDefaults`, `LastBuild.Validate` and `BuildCacheConfig.Validate` is unused in the source, so it is dropped.
- `k8sOSLabel` is declared in a file that is not part of this model. It is the `osLabel` field of `Collaborators`, not a constant.
- The "no error when the spec is unchanged" property holds only when the diff succeeds. A diff that fails gives the failure entry even for equal specs (`DiffFailureReported`).
