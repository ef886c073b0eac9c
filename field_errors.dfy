/**
 The error report that admission validation returns: knative's `apis.FieldError`,
 reduced to what the Build validation relies on. A report is a list of entries,
 each with a message, the field paths it applies to and a detail text. The empty
 list is the nil report ("valid"). `Also` is concatenation and `ViaField(f)`
 re-scopes a report by putting the segment `f` in front of every path.
 */
module FieldErrors {

  /** A field path as its list of segments: ["spec", "cache", "volume"] is spec.cache.volume. */
  type Path = seq<string>

  datatype Message =
    | Text(text: string)          // a literal message, as ErrGeneric or a struct literal gives it
    | InvalidKeyName(key: string) // the message of ErrInvalidKeyName, which quotes the key

  datatype FieldError = FieldError(message: Message, paths: seq<Path>, details: string)

  /** Zero or more entries; [] is the nil *FieldError. `a.Also(b)` is `a + b`. */
  type Report = seq<FieldError>

  const MissingFieldMessage := "missing field(s)"

  /** apis.ErrMissingField with one field path. */
  function ErrMissingField(field: string): (e: FieldError)
  {
    FieldError(Text(MissingFieldMessage), [[field]], "")
  }

  /** apis.ErrGeneric: a diagnostic on the given paths, no details. */
  function ErrGeneric(diagnostic: string, fieldPaths: seq<Path>): (e: FieldError)
  {
    FieldError(Text(diagnostic), fieldPaths, "")
  }

  /** apis.ErrInvalidKeyName with a single detail string. */
  function ErrInvalidKeyName(key: string, fieldPath: string, details: string): (e: FieldError)
  {
    FieldError(InvalidKeyName(key), [[fieldPath]], details)
  }

  /** One entry re-scoped under `prefix`: message and details kept, each path gains `prefix` in front. */
  function ScopeEntry(prefix: string, e: FieldError): (s: FieldError)
    ensures s.message == e.message && s.details == e.details
    ensures |s.paths| == |e.paths|
    ensures forall j :: 0 <= j < |e.paths| ==> s.paths[j] == [prefix] + e.paths[j]
  {
    FieldError(e.message, seq(|e.paths|, j requires 0 <= j < |e.paths| => [prefix] + e.paths[j]), e.details)
  }

  /** `r.ViaField(prefix)`: every entry, in order, re-scoped under `prefix`; nil stays nil. */
  function ViaField(prefix: string, r: Report): (v: Report)
    ensures |v| == |r|
    ensures forall i :: 0 <= i < |r| ==> v[i] == ScopeEntry(prefix, r[i])
  {
    if r == [] then [] else [ScopeEntry(prefix, r[0])] + ViaField(prefix, r[1..])
  }

  /** Path rendering: the segments joined with '.'. */
  function Dotted(p: Path): (s: string)
  {
    if |p| == 0 then "" else if |p| == 1 then p[0] else p[0] + "." + Dotted(p[1..])
  }

  /** A chain `rs[0].Also(rs[1])...Also(rs[n-1])`: the reports merged left to right, in list order. */
  function Concat(rs: seq<Report>): (r: Report)
  {
    if rs == [] then [] else Concat(rs[..|rs| - 1]) + rs[|rs| - 1]
  }

  /** A chain is nil exactly when every report in it is nil. */
  lemma {:induction false} ConcatEmptyIff(rs: seq<Report>)
    ensures Concat(rs) == [] <==> forall k :: 0 <= k < |rs| ==> rs[k] == []
  {
    if rs != [] {
      var init := rs[..|rs| - 1];
      ConcatEmptyIff(init);
      assert forall k :: 0 <= k < |init| ==> init[k] == rs[k];
    }
  }

  /** No short-circuit: every entry of every report in a chain is in the chain. */
  lemma {:induction false} ConcatContains(rs: seq<Report>, k: nat, e: FieldError)
    requires k < |rs| && e in rs[k]
    ensures e in Concat(rs)
  {
    if k < |rs| - 1 {
      var init := rs[..|rs| - 1];
      assert init[k] == rs[k];
      ConcatContains(init, k, e);
    }
  }

  /** A chain of nine reports is the nine reports merged with Also, left to right. */
  lemma ConcatNine(rs: seq<Report>)
    requires |rs| == 9
    ensures Concat(rs) == rs[0] + rs[1] + rs[2] + rs[3] + rs[4] + rs[5] + rs[6] + rs[7] + rs[8]
  {
    ConcatFirst(rs);
    ConcatPrefix(rs, 2);
    ConcatPrefix(rs, 3);
    ConcatPrefix(rs, 4);
    ConcatPrefix(rs, 5);
    ConcatPrefix(rs, 6);
    ConcatPrefix(rs, 7);
    ConcatPrefix(rs, 8);
    ConcatWhole(rs);
  }

  /** The chain of the first report alone is that report. */
  lemma ConcatFirst(rs: seq<Report>)
    requires |rs| > 0
    ensures Concat(rs[..1]) == rs[0]
  {
    assert rs[..1][..0] == [];
  }

  /** Concat's own definition for a non-empty list; a proof helper only, so that ConcatNine unfolds the whole list in one step. */
  lemma ConcatWhole(rs: seq<Report>)
    requires |rs| > 0
    ensures Concat(rs) == Concat(rs[..|rs| - 1]) + rs[|rs| - 1]
  {
  }

  /** One step of the chain: the first k reports are the first k - 1 followed by report k - 1. */
  lemma ConcatPrefix(rs: seq<Report>, k: nat)
    requires 0 < k <= |rs|
    ensures Concat(rs[..k]) == Concat(rs[..k - 1]) + rs[k - 1]
  {
    assert rs[..k][..k - 1] == rs[..k - 1];
  }

  /** Re-scoping distributes over Also: scoping a merged report is merging the scoped reports. */
  lemma ViaFieldAlso(prefix: string, a: Report, b: Report)
    ensures ViaField(prefix, a + b) == ViaField(prefix, a) + ViaField(prefix, b)
  {
  }

  /** Two re-scopings compose: the outer segment comes first, then the inner one. */
  lemma ViaFieldNested(outer: string, inner: string, r: Report)
    ensures |ViaField(outer, ViaField(inner, r))| == |r|
    ensures forall i :: 0 <= i < |r| ==>
      var e := ViaField(outer, ViaField(inner, r))[i];
      e.message == r[i].message && e.details == r[i].details && |e.paths| == |r[i].paths| &&
      forall j :: 0 <= j < |r[i].paths| ==> e.paths[j] == [outer, inner] + r[i].paths[j]
  {
  }

  /** An entry of a report shows up, re-scoped, in the re-scoped report. */
  lemma ViaFieldKeeps(prefix: string, r: Report, e: FieldError)
    requires e in r
    ensures ScopeEntry(prefix, e) in ViaField(prefix, r)
  {
  }

  /** Re-scoping an entry with one path. */
  lemma ScopeOnePath(prefix: string, m: Message, p: Path, d: string)
    ensures ScopeEntry(prefix, FieldError(m, [p], d)) == FieldError(m, [[prefix] + p], d)
  {
  }

  /** Re-scoping an entry with two paths. */
  lemma ScopeTwoPaths(prefix: string, m: Message, p: Path, q: Path, d: string)
    ensures ScopeEntry(prefix, FieldError(m, [p, q], d)) == FieldError(m, [[prefix] + p, [prefix] + q], d)
  {
  }

  /** Every path of an entry of a re-scoped report starts with the prefix. */
  lemma InScope(prefix: string, r: Report, e: FieldError)
    requires e in ViaField(prefix, r)
    ensures forall j :: 0 <= j < |e.paths| ==> |e.paths[j]| >= 1 && e.paths[j][0] == prefix
  {
  }

  /** The rendering of a three-segment path: the segments with a '.' between each two. */
  lemma DottedThree(a: string, b: string, c: string)
    ensures Dotted([a, b, c]) == a + "." + (b + "." + c)
  {
    assert [a, b, c][1..] == [b, c];
    assert [b, c][1..] == [c];
    assert Dotted([c]) == c;
    assert Dotted([b, c]) == b + "." + c;
  }
}
