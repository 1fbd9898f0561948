/** The pure helpers of the adapter's cache: the key a region is cached under
    (`getCacheKey`), the freshness test (`isCacheValid`), the overlap test
    (`featureOverlapsRegion`) and the client-side filter applied to a feature
    list before it is emitted. */
module CacheView {
  import opened Options
  import opened JsonValue
  import opened Identifiers
  import opened AlignmentParser

  /** The adapter settings the coordinator reads. Times are whole milliseconds. */
  datatype AdapterConfig = AdapterConfig(
    mapping: FieldMapping,
    assemblyNames: seq<string>,
    cacheTimeout: int,
    refreshInterval: int,
    clientSideFilter: bool)

  /** The assembly part of a key: a missing or empty name reads as "default". */
  function AssemblyOrDefault(asm: Option<string>): (r: string)
    ensures r != ""
    ensures asm.Some? && asm.value != "" ==> r == asm.value
  {
    if asm.Some? && asm.value != "" then asm.value else "default"
  }

  /** `getCacheKey`: one key per assembly with client-side filtering (the whole
      data set is fetched once), one key per exact window otherwise. */
  function CacheKey(clientSideFilter: bool, region: Region): string {
    var asm := AssemblyOrDefault(region.assemblyName);
    if clientSideFilter then GlobalKey(asm)
    else RegionKey(asm, region.refName, region.start, region.end)
  }

  /** With client-side filtering, two regions share a key exactly when they
      name the same assembly, whatever their windows. */
  lemma GlobalKeySharedByAssembly(r1: Region, r2: Region)
    ensures CacheKey(true, r1) == CacheKey(true, r2)
            <==> AssemblyOrDefault(r1.assemblyName) == AssemblyOrDefault(r2.assemblyName)
  {
    GlobalKeyInjective(AssemblyOrDefault(r1.assemblyName), AssemblyOrDefault(r2.assemblyName));
  }

  /** A request without an assembly name and one with an empty name share the
      key of an assembly literally called "default". */
  lemma MissingAssemblyIsDefault(csf: bool, ref: string, start: int, end: int)
    ensures CacheKey(csf, Region(ref, start, end, None)) == CacheKey(csf, Region(ref, start, end, Some("")))
    ensures CacheKey(csf, Region(ref, start, end, None)) == CacheKey(csf, Region(ref, start, end, Some("default")))
  {
  }

  /** Without client-side filtering, and when neither assembly nor reference
      names contain ':', two regions share a key exactly when they agree on
      assembly, reference and window. */
  lemma RegionKeyDistinguishesWindows(r1: Region, r2: Region)
    requires ':' !in AssemblyOrDefault(r1.assemblyName) && ':' !in r1.refName
    requires ':' !in AssemblyOrDefault(r2.assemblyName) && ':' !in r2.refName
    ensures CacheKey(false, r1) == CacheKey(false, r2)
            <==> && AssemblyOrDefault(r1.assemblyName) == AssemblyOrDefault(r2.assemblyName)
                 && r1.refName == r2.refName && r1.start == r2.start && r1.end == r2.end
  {
    if CacheKey(false, r1) == CacheKey(false, r2) {
      RegionKeyInjective(AssemblyOrDefault(r1.assemblyName), r1.refName, r1.start, r1.end,
                         AssemblyOrDefault(r2.assemblyName), r2.refName, r2.start, r2.end);
    }
  }

  /** Two different windows whose names contain ':' can share a key. */
  lemma RegionKeysCanCollide()
    ensures CacheKey(false, Region("c", 1, 2, Some("a:b"))) == CacheKey(false, Region("b:c", 1, 2, Some("a")))
  {
    RegionKeyCollision();
  }

  /** A cached list and the time it was stored. */
  datatype CacheEntry = CacheEntry(features: seq<Feature>, timestamp: int)

  /** `isCacheValid`: a zero timeout disables the cache; otherwise an entry is
      good while strictly less than `timeout` milliseconds old. */
  predicate Fresh(timeout: int, e: CacheEntry, now: int) {
    timeout != 0 && now - e.timestamp < timeout
  }

  /** With a positive timeout an entry stored at `t` is served for the window
      `now < t + timeout` (and never with a zero timeout). */
  lemma FreshWindow(timeout: int, e: CacheEntry, now: int)
    ensures timeout == 0 ==> !Fresh(timeout, e, now)
    ensures timeout > 0 ==> (Fresh(timeout, e, now) <==> now < e.timestamp + timeout)
    ensures timeout < 0 ==> (Fresh(timeout, e, now) ==> now < e.timestamp)
  {
  }

  /** `featureOverlapsRegion`: the reference value is strictly equal to the
      region's name (so only a string reference can match) and the half-open
      ranges intersect. */
  predicate Overlaps(f: Feature, region: Region) {
    f.refName == JStr(region.refName) && f.start < region.end && f.end > region.start
  }

  /** The client-side filter: the overlapping features, in list order. */
  function Filter(fs: seq<Feature>, region: Region): (r: seq<Feature>)
    ensures |r| <= |fs|
  {
    if |fs| == 0 then []
    else (if Overlaps(fs[0], region) then [fs[0]] else []) + Filter(fs[1..], region)
  }

  /** A feature survives the filter exactly when it was in the list and
      overlaps the region. */
  lemma {:induction false} FilterMembers(fs: seq<Feature>, region: Region, f: Feature)
    ensures f in Filter(fs, region) <==> f in fs && Overlaps(f, region)
  {
    if |fs| > 0 {
      FilterMembers(fs[1..], region, f);
      assert fs == [fs[0]] + fs[1..];
    }
  }

  /** The filter works piecewise, so it keeps the original order. */
  lemma {:induction false} FilterAppend(a: seq<Feature>, b: seq<Feature>, region: Region)
    ensures Filter(a + b, region) == Filter(a, region) + Filter(b, region)
  {
    if |a| == 0 {
      assert a + b == b;
    } else {
      assert (a + b)[0] == a[0];
      assert (a + b)[1..] == a[1..] + b;
      FilterAppend(a[1..], b, region);
    }
  }

  /** Filtering twice is filtering once. */
  lemma {:induction false} FilterIdempotent(fs: seq<Feature>, region: Region)
    ensures Filter(Filter(fs, region), region) == Filter(fs, region)
  {
    if |fs| > 0 {
      var head := if Overlaps(fs[0], region) then [fs[0]] else [];
      FilterAppend(head, Filter(fs[1..], region), region);
      FilterIdempotent(fs[1..], region);
      if Overlaps(fs[0], region) {
        assert Filter(head, region) == [fs[0]] + Filter(head[1..], region);
        assert head[1..] == [];
      }
    }
  }

  /** What a caller is sent from a feature list: filtered for its own region
      with client-side filtering, the whole list otherwise. */
  function View(csf: bool, fs: seq<Feature>, region: Region): seq<Feature> {
    if csf then Filter(fs, region) else fs
  }

  /** Every list is well formed when each of its features is. */
  predicate AllWellFormed(fs: seq<Feature>) {
    forall i :: 0 <= i < |fs| ==> WellFormed(fs[i])
  }

  /** The view holds exactly the overlapping features under client-side
      filtering, all of them otherwise, and it keeps well-formedness. */
  lemma ViewMembers(csf: bool, fs: seq<Feature>, region: Region, f: Feature)
    ensures f in View(csf, fs, region) <==> f in fs && (csf ==> Overlaps(f, region))
  {
    if csf {
      FilterMembers(fs, region, f);
    }
  }

  /** `ViewMembers` for every region and feature at once. */
  lemma ViewMembership(csf: bool, fs: seq<Feature>)
    ensures forall region, f :: f in View(csf, fs, region) <==> f in fs && (csf ==> Overlaps(f, region))
  {
    forall region, f {
      ViewMembers(csf, fs, region, f);
    }
  }

  /** Viewing a well formed list gives a well formed list. */
  lemma ViewWellFormed(csf: bool, fs: seq<Feature>, region: Region)
    requires AllWellFormed(fs)
    ensures AllWellFormed(View(csf, fs, region))
  {
    var v := View(csf, fs, region);
    forall i | 0 <= i < |v|
      ensures WellFormed(v[i])
    {
      ViewMembers(csf, fs, region, v[i]);
    }
  }
}
