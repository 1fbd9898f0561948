/** Turning one response body into synteny features (`parseAlignments` and
    `parseAlignment`): field lookup through configured dotted paths, integer
    coercion, per-record validation, strand normalisation, the deterministic
    `uniqueId` and the flip rule choosing which side is primary. */
module AlignmentParser {
  import opened Options
  import opened JsonValue
  import opened FieldResolver
  import Identifiers

  /** A requested genomic window; the assembly name may be absent. */
  datatype Region = Region(refName: string, start: int, end: int, assemblyName: Option<string>)

  /** Dotted paths of each logical field in a record (and of the records array
      in the body). `identityField` is optional because the adapter's schema
      does not declare that slot. */
  datatype FieldMapping = FieldMapping(
    alignmentsField: string,
    queryNameField: string,
    queryStartField: string,
    queryEndField: string,
    queryLengthField: string,
    targetNameField: string,
    targetStartField: string,
    targetEndField: string,
    targetLengthField: string,
    strandField: string,
    numResidueMatchesField: string,
    alignmentBlockLengthField: string,
    identityField: Option<string>,
    mappingQualityField: string)

  /** The schema defaults; the undeclared identity slot reads as undefined. */
  const DefaultMapping := FieldMapping(
    "alignments",
    "query.name", "query.start", "query.end", "query.length",
    "target.name", "target.start", "target.end", "target.length",
    "strand", "numResidueMatches", "alignmentBlockLength",
    None,
    "mappingQuality")

  /** One side of an alignment: sequence name and range. */
  datatype Side = Side(name: Json, start: int, end: int)

  /** What validation extracts from a record. */
  datatype Coords = Coords(query: Side, target: Side, queryLength: Option<int>, targetLength: Option<int>)

  /** The paired region of a feature, on the other assembly. */
  datatype Mate = Mate(refName: Json, start: int, end: int, assemblyName: Option<string>)

  /** A normalized synteny feature. Its `name` equals `uniqueId` and its `type`
      is always `match`, so neither is stored separately. */
  datatype Feature = Feature(
    uniqueId: string,
    refName: Json,
    start: int,
    end: int,
    assemblyName: Option<string>,
    strand: int,
    mate: Mate,
    syntenyId: nat,
    queryLength: Option<int>,
    targetLength: Option<int>,
    numMatches: Value,
    blockLen: Value,
    mappingQuality: Value,
    identity: Value)

  /** Why a record was skipped, one per warning the adapter logs. */
  datatype Rejection = InvalidQuery | InvalidQueryRange | InvalidTarget | InvalidTargetRange

  /** A record either yields a feature, is rejected, or throws (and is then
      caught by the batch loop). */
  datatype ParseOutcome = Accepted(feature: Feature) | Rejected(reason: Rejection) | Threw

  predicate WellFormed(f: Feature) {
    f.start < f.end && f.mate.start < f.mate.end && (f.strand == 1 || f.strand == -1)
  }

  function Field(a: Json, path: string): Value {
    GetNestedValue(a, path)
  }

  /** Whether `parseInt` can turn the value at `path` into text. */
  predicate IntFieldConverts(a: Json, path: string) {
    ValueConverts(GetNestedValue(a, path))
  }

  /** What `parseInt` returns for the value at `path`, when it returns. */
  function IntField(a: Json, path: string): Option<int> {
    var v := GetNestedValue(a, path);
    if ValueConverts(v) then ParseIntValue(v) else None
  }

  /** The values of a record's configured fields, coordinates already passed
      through `parseInt`. `intsConvert` is false when one of the six `parseInt`
      calls throws instead of returning. `identity` is `None` when no identity
      path is declared (its lookup would be given an undefined path), and
      otherwise holds the looked-up value. */
  datatype Resolved = Resolved(
    qName: Value, qStart: Option<int>, qEnd: Option<int>, qLength: Option<int>,
    tName: Value, tStart: Option<int>, tEnd: Option<int>, tLength: Option<int>,
    intsConvert: bool,
    strand: Value, numMatches: Value, blockLen: Value, mappingQuality: Value,
    identity: Option<Value>)

  /** All field lookups of one record. */
  function Resolve(a: Json, m: FieldMapping): (res: Resolved)
    ensures res.identity.None? <==> m.identityField.None?
    ensures res.intsConvert <==>
      && IntFieldConverts(a, m.queryStartField) && IntFieldConverts(a, m.queryEndField)
      && IntFieldConverts(a, m.queryLengthField) && IntFieldConverts(a, m.targetStartField)
      && IntFieldConverts(a, m.targetEndField) && IntFieldConverts(a, m.targetLengthField)
  {
    Resolved(
      Field(a, m.queryNameField), IntField(a, m.queryStartField),
      IntField(a, m.queryEndField), IntField(a, m.queryLengthField),
      Field(a, m.targetNameField), IntField(a, m.targetStartField),
      IntField(a, m.targetEndField), IntField(a, m.targetLengthField),
      && IntFieldConverts(a, m.queryStartField) && IntFieldConverts(a, m.queryEndField)
      && IntFieldConverts(a, m.queryLengthField) && IntFieldConverts(a, m.targetStartField)
      && IntFieldConverts(a, m.targetEndField) && IntFieldConverts(a, m.targetLengthField),
      Field(a, m.strandField), Field(a, m.numResidueMatchesField),
      Field(a, m.alignmentBlockLengthField), Field(a, m.mappingQualityField),
      if m.identityField.Some? then Some(Field(a, m.identityField.value)) else None)
  }

  /** A side's name is truthy and both ends are integers. */
  predicate SideReadable(name: Value, start: Option<int>, end: Option<int>) {
    Truthy(name) && start.Some? && end.Some?
  }

  /** ... and the range is non-empty. */
  predicate SideValid(name: Value, start: Option<int>, end: Option<int>) {
    SideReadable(name, start, end) && start.value < end.value
  }

  /** A record is kept exactly when both sides are valid. */
  predicate RecordValid(r: Resolved) {
    SideValid(r.qName, r.qStart, r.qEnd) && SideValid(r.tName, r.tStart, r.tEnd)
  }

  /** The validation cascade: query names and numbers, query order, target
      names and numbers, target order; the first failing check names the
      rejection. */
  function Validate(r: Resolved): (v: Result<Coords, Rejection>)
    ensures v.Ok? <==> RecordValid(r)
    ensures v.Ok? ==>
      && Some(v.value.query.name) == r.qName
      && Some(v.value.query.start) == r.qStart && Some(v.value.query.end) == r.qEnd
      && Some(v.value.target.name) == r.tName
      && Some(v.value.target.start) == r.tStart && Some(v.value.target.end) == r.tEnd
      && v.value.queryLength == r.qLength && v.value.targetLength == r.tLength
    ensures v == Err(InvalidQuery) <==> !SideReadable(r.qName, r.qStart, r.qEnd)
    ensures v == Err(InvalidQueryRange)
      <==> SideReadable(r.qName, r.qStart, r.qEnd) && !SideValid(r.qName, r.qStart, r.qEnd)
    ensures v == Err(InvalidTarget)
      <==> SideValid(r.qName, r.qStart, r.qEnd) && !SideReadable(r.tName, r.tStart, r.tEnd)
    ensures v == Err(InvalidTargetRange)
      <==> SideValid(r.qName, r.qStart, r.qEnd) && SideReadable(r.tName, r.tStart, r.tEnd)
           && !SideValid(r.tName, r.tStart, r.tEnd)
  {
    if !Truthy(r.qName) || r.qStart.None? || r.qEnd.None? then Err(InvalidQuery)
    else if r.qStart.value >= r.qEnd.value then Err(InvalidQueryRange)
    else if !Truthy(r.tName) || r.tStart.None? || r.tEnd.None? then Err(InvalidTarget)
    else if r.tStart.value >= r.tEnd.value then Err(InvalidTargetRange)
    else
      Ok(Coords(Side(r.qName.value, r.qStart.value, r.qEnd.value),
                Side(r.tName.value, r.tStart.value, r.tEnd.value),
                r.qLength, r.tLength))
  }

  /** `(value || '+')` compared with `'-'`, `-1` and `'-1'`. */
  function ResolveStrand(v: Value): (s: int)
    ensures s == 1 || s == -1
    ensures s == -1 <==> v == Some(JStr("-")) || v == Some(JNum(-1)) || v == Some(JStr("-1"))
  {
    var sv := OrElse(v, JStr("+"));
    if sv == JStr("-") || sv == JNum(-1) || sv == JStr("-1") then -1 else 1
  }

  /** `names.indexOf(x)`. */
  function IndexOf(names: seq<string>, x: string): (r: int)
    ensures -1 <= r < |names|
    ensures r == -1 <==> x !in names
    ensures r >= 0 ==> names[r] == x && x !in names[..r]
    decreases |names|
  {
    if |names| == 0 then -1
    else if names[0] == x then 0
    else
      var i := IndexOf(names[1..], x);
      assert names[1..] == names[..|names|][1..];
      if i == -1 then -1
      else
        assert names[..i + 1] == [names[0]] + names[1..][..i];
        i + 1
  }

  /** `names[i]`, undefined past the end. */
  function At(names: seq<string>, i: nat): Option<string> {
    if i < |names| then Some(names[i]) else None
  }

  /** The flip condition: the requesting assembly sits at index 0. An absent
      assembly name is never found. */
  predicate Flips(names: seq<string>, asm: Option<string>) {
    asm.Some? && IndexOf(names, asm.value) == 0
  }

  /** Index 0 means exactly: the first configured name is the requested one. */
  lemma FlipsIffFirst(names: seq<string>, asm: Option<string>)
    ensures Flips(names, asm) <==> |names| > 0 && asm == Some(names[0])
  {
  }

  /** The conversions made after validation return: both names are rendered
      into `uniqueId` and, when an identity path is declared, its value goes
      through `Number(...)`, which fails exactly where rendering does. */
  predicate LateConversionsOk(r: Resolved) {
    && ValueConverts(r.qName) && ValueConverts(r.tName)
    && (r.identity.Some? ==> ValueConverts(r.identity.value))
  }

  /** Every conversion the parser applies to the record returns. */
  predicate ConversionsOk(r: Resolved) {
    r.intsConvert && LateConversionsOk(r)
  }

  /** The record's `uniqueId`, from the rendered names and the parsed numbers. */
  function UniqueId(c: Coords): string
    requires Converts(c.query.name) && Converts(c.target.name)
  {
    Identifiers.AlignmentId(
      ToJsString(c.query.name), c.query.start, c.query.end,
      ToJsString(c.target.name), c.target.start, c.target.end)
  }

  /** Assemble the feature from a validated record, applying the flip rule. */
  function Build(res: Resolved, c: Coords, index: nat, region: Region, names: seq<string>): Feature
    requires Converts(c.query.name) && Converts(c.target.name)
  {
    var flip := Flips(names, region.assemblyName);
    var primary := if flip then c.query else c.target;
    var other := if flip then c.target else c.query;
    Feature(
      UniqueId(c),
      primary.name, primary.start, primary.end,
      region.assemblyName,
      ResolveStrand(res.strand),
      Mate(other.name, other.start, other.end, At(names, if flip then 1 else 0)),
      index,
      c.queryLength, c.targetLength,
      res.numMatches, res.blockLen, res.mappingQuality,
      if res.identity.Some? then res.identity.value else None)
  }

  /** Validation followed by assembly, on already looked-up values; an
      undeclared identity path reads as undefined. A `parseInt` that throws
      does so before validation; a name or identity that cannot be turned
      into text throws only once the record has passed validation. */
  function ParseResolved(res: Resolved, index: nat, region: Region, names: seq<string>): (r: ParseOutcome)
    ensures r.Threw? <==> !res.intsConvert || (RecordValid(res) && !LateConversionsOk(res))
    ensures r.Accepted? <==> RecordValid(res) && ConversionsOk(res)
    ensures r.Rejected? <==> res.intsConvert && !RecordValid(res)
    ensures r.Rejected? ==> r.reason == Validate(res).error
    ensures r.Accepted? ==>
      && WellFormed(r.feature)
      && r.feature.syntenyId == index
      && r.feature.assemblyName == region.assemblyName
      && r.feature.strand == ResolveStrand(res.strand)
  {
    if !res.intsConvert then Threw
    else
      match Validate(res)
      case Err(e) => Rejected(e)
      case Ok(c) =>
        if !LateConversionsOk(res) then Threw
        else Accepted(Build(res, c, index, region, names))
  }

  /** `parseAlignment` as written, on looked-up values: a validated record
      whose identity path is undeclared throws, because the lookup splits an
      undefined path. */
  function ParseResolvedAsWritten(res: Resolved, index: nat, region: Region, names: seq<string>)
    : (r: ParseOutcome)
    ensures r.Threw? <==>
      !res.intsConvert || (RecordValid(res) && (res.identity.None? || !LateConversionsOk(res)))
    ensures r.Accepted? <==> RecordValid(res) && ConversionsOk(res) && res.identity.Some?
    ensures r.Rejected? ==> r == ParseResolved(res, index, region, names)
  {
    if res.intsConvert && RecordValid(res) && res.identity.None? then Threw
    else ParseResolved(res, index, region, names)
  }

  /** With the identity path declared, the written and corrected parsers agree. */
  lemma AsWrittenAgreesWhenIdentityDeclared(res: Resolved, index: nat, region: Region,
                                            names: seq<string>)
    requires res.identity.Some?
    ensures ParseResolvedAsWritten(res, index, region, names) == ParseResolved(res, index, region, names)
  {
  }

  /** `parseAlignment`, corrected: the record's lookups, then validation and
      assembly. */
  function ParseAlignment(a: Json, index: nat, region: Region, m: FieldMapping,
                          names: seq<string>): ParseOutcome
  {
    ParseResolved(Resolve(a, m), index, region, names)
  }

  /** `parseAlignment` as written. */
  function ParseAlignmentAsWritten(a: Json, index: nat, region: Region, m: FieldMapping,
                                   names: seq<string>): ParseOutcome
  {
    ParseResolvedAsWritten(Resolve(a, m), index, region, names)
  }

  /** An accepted feature's `uniqueId` records the query side first and the
      target side second, whatever the flip: for string names without ':' it
      decodes back to both names and all four coordinates. */
  lemma UniqueIdRecordsQueryThenTarget(res: Resolved, index: nat, region: Region, names: seq<string>,
                                       qn: string, tn: string)
    requires RecordValid(res) && ConversionsOk(res)
    requires res.qName == Some(JStr(qn)) && res.tName == Some(JStr(tn))
    requires ':' !in qn && ':' !in tn
    ensures Identifiers.DecodeAlignmentId(ParseResolved(res, index, region, names).feature.uniqueId)
            == Some((qn, res.qStart.value, res.qEnd.value, tn, res.tStart.value, res.tEnd.value))
  {
    Identifiers.AlignmentIdRoundTrip(qn, res.qStart.value, res.qEnd.value,
                                     tn, res.tStart.value, res.tEnd.value);
  }

  /** A record that passes validation but whose query name is an object with
      its own `toString` member throws while its `uniqueId` is rendered, so
      the batch loop drops it. */
  lemma ObjectNameThrows(fields: map<string, Json>, index: nat, region: Region, names: seq<string>)
    requires "toString" in fields
    ensures
      var res := Resolved(Some(JObj(fields)), Some(1), Some(2), None,
                          Some(JStr("chr5")), Some(3), Some(4), None, true,
                          None, None, None, None, Some(None));
      RecordValid(res) && ParseResolved(res, index, region, names) == Threw
  {
  }

  /** The flip rule: requesting the first configured assembly makes the query
      side primary and the target the mate on the second assembly; any other
      request (the second assembly, an unknown one, none) makes the target
      primary and the query the mate on the first assembly. */
  lemma FlipRule(res: Resolved, index: nat, region: Region, names: seq<string>)
    requires RecordValid(res) && ConversionsOk(res)
    ensures
      var f := ParseResolved(res, index, region, names).feature;
      var c := Validate(res).value;
      var primary := Side(f.refName, f.start, f.end);
      var mate := Side(f.mate.refName, f.mate.start, f.mate.end);
      if |names| > 0 && region.assemblyName == Some(names[0]) then
        primary == c.query && mate == c.target && f.mate.assemblyName == At(names, 1)
      else
        primary == c.target && mate == c.query && f.mate.assemblyName == At(names, 0)
  {
    FlipsIffFirst(names, region.assemblyName);
  }

  /** Viewing one record from each side of a two-assembly comparison swaps
      primary and mate, and each mate names the other assembly. */
  lemma FlipSymmetry(res: Resolved, index: nat, x: string, y: string,
                     regionX: Region, regionY: Region)
    requires x != y
    requires regionX.assemblyName == Some(x) && regionY.assemblyName == Some(y)
    requires RecordValid(res) && ConversionsOk(res)
    ensures
      var fx := ParseResolved(res, index, regionX, [x, y]).feature;
      var fy := ParseResolved(res, index, regionY, [x, y]).feature;
      && fx.refName == fy.mate.refName && fx.start == fy.mate.start && fx.end == fy.mate.end
      && fy.refName == fx.mate.refName && fy.start == fx.mate.start && fy.end == fx.mate.end
      && fx.mate.assemblyName == Some(y) && fy.mate.assemblyName == Some(x)
      && fx.assemblyName == Some(x) && fy.assemblyName == Some(y)
  {
    FlipRule(res, index, regionX, [x, y]);
    FlipRule(res, index, regionY, [x, y]);
  }

  /** Whether a record is kept and the `uniqueId` it gets depend on the record
      alone, not on the region, the configured assemblies or its position. */
  lemma UniqueIdIndependentOfView(res: Resolved,
                                  i: nat, r1: Region, n1: seq<string>,
                                  j: nat, r2: Region, n2: seq<string>)
    ensures ParseResolved(res, i, r1, n1).Accepted? == ParseResolved(res, j, r2, n2).Accepted?
    ensures ParseResolved(res, i, r1, n1).Accepted? ==>
      ParseResolved(res, i, r1, n1).feature.uniqueId == ParseResolved(res, j, r2, n2).feature.uniqueId
  {
  }

  /** The records array: the value at `alignmentsField`, or `[]` when that is
      falsy; `None` when it is something other than an array. */
  function AlignmentRecords(data: Json, m: FieldMapping): Option<seq<Json>> {
    var v := OrElse(Field(data, m.alignmentsField), JArr([]));
    if v.JArr? then Some(v.items) else None
  }

  /** Every accepted outcome carries its own position as `syntenyId`. */
  predicate Tagged(os: seq<ParseOutcome>) {
    forall i :: 0 <= i < |os| && os[i].Accepted? ==> os[i].feature.syntenyId == i
  }

  /** `out` is exactly the accepted features of `os` from position `lo` on, in
      order: each is the outcome at its own `syntenyId`, the ids increase, and
      no accepted outcome is missing. */
  predicate SurvivorsFrom(os: seq<ParseOutcome>, lo: nat, out: seq<Feature>) {
    && (forall k :: 0 <= k < |out| ==>
          lo <= out[k].syntenyId < |os| && os[out[k].syntenyId] == Accepted(out[k]))
    && (forall k, l :: 0 <= k < l < |out| ==> out[k].syntenyId < out[l].syntenyId)
    && (forall j :: lo <= j < |os| && os[j].Accepted? ==> os[j].feature in out)
  }

  /** The `filter` step: keep the features of the accepted outcomes from `lo` on. */
  function KeepAccepted(os: seq<ParseOutcome>, lo: nat): (out: seq<Feature>)
    requires lo <= |os|
    ensures |out| <= |os| - lo
    decreases |os| - lo
  {
    if lo == |os| then []
    else if os[lo].Accepted? then [os[lo].feature] + KeepAccepted(os, lo + 1)
    else KeepAccepted(os, lo + 1)
  }

  /** The filter keeps exactly the accepted features, in order, each at the
      position its `syntenyId` names. */
  lemma {:induction false} KeepAcceptedSurvivors(os: seq<ParseOutcome>, lo: nat)
    requires lo <= |os| && Tagged(os)
    ensures SurvivorsFrom(os, lo, KeepAccepted(os, lo))
    decreases |os| - lo
  {
    if lo < |os| {
      KeepAcceptedSurvivors(os, lo + 1);
      var rest := KeepAccepted(os, lo + 1);
      if os[lo].Accepted? {
        var out := [os[lo].feature] + rest;
        assert out[0].syntenyId == lo;
        assert forall k :: 1 <= k < |out| ==> out[k] == rest[k - 1];
      }
    }
  }

  /** With no accepted outcome from `lo` on, the filter keeps nothing. */
  lemma {:induction false} NothingAcceptedKeepsNothing(os: seq<ParseOutcome>, lo: nat)
    requires lo <= |os|
    requires forall i :: lo <= i < |os| ==> !os[i].Accepted?
    ensures KeepAccepted(os, lo) == []
    decreases |os| - lo
  {
    if lo < |os| {
      NothingAcceptedKeepsNothing(os, lo + 1);
    }
  }

  /** The `map` step: one outcome per looked-up record, in record order. */
  function Outcomes(rs: seq<Resolved>, region: Region, names: seq<string>): (os: seq<ParseOutcome>)
    ensures |os| == |rs| && Tagged(os)
    ensures forall i :: 0 <= i < |rs| ==> (os[i].Accepted? <==> RecordValid(rs[i]) && ConversionsOk(rs[i]))
    ensures forall i :: 0 <= i < |rs| ==> (os[i].Rejected? <==> rs[i].intsConvert && !RecordValid(rs[i]))
    ensures forall i :: 0 <= i < |rs| && os[i].Accepted? ==> WellFormed(os[i].feature)
  {
    seq(|rs|, i requires 0 <= i < |rs| => ParseResolved(rs[i], i, region, names))
  }

  /** The as-written outcomes, where a validated record may throw. */
  function OutcomesAsWritten(rs: seq<Resolved>, region: Region, names: seq<string>)
    : (os: seq<ParseOutcome>)
    ensures |os| == |rs| && Tagged(os)
    ensures forall i :: 0 <= i < |rs| ==>
      (os[i].Accepted? <==> RecordValid(rs[i]) && ConversionsOk(rs[i]) && rs[i].identity.Some?)
  {
    seq(|rs|, i requires 0 <= i < |rs| => ParseResolvedAsWritten(rs[i], i, region, names))
  }

  /** The batch over looked-up records: exactly the valid records' features,
      in record order, each carrying its original index, all well formed. */
  function ParseRecords(rs: seq<Resolved>, region: Region, names: seq<string>): (r: seq<Feature>)
    ensures SurvivorsFrom(Outcomes(rs, region, names), 0, r)
    ensures forall k :: 0 <= k < |r| ==>
      WellFormed(r[k]) && RecordValid(rs[r[k].syntenyId]) && ConversionsOk(rs[r[k].syntenyId])
    ensures forall i :: 0 <= i < |rs| && RecordValid(rs[i]) && ConversionsOk(rs[i]) ==>
      exists k :: 0 <= k < |r| && r[k].syntenyId == i
  {
    var os := Outcomes(rs, region, names);
    KeepAcceptedSurvivors(os, 0);
    var r := KeepAccepted(os, 0);
    assert forall i :: 0 <= i < |rs| && RecordValid(rs[i]) && ConversionsOk(rs[i]) ==> os[i].feature in r;
    r
  }

  /** The batch as written: thrown and rejected records are both dropped. */
  function ParseRecordsAsWritten(rs: seq<Resolved>, region: Region, names: seq<string>)
    : (r: seq<Feature>)
    ensures SurvivorsFrom(OutcomesAsWritten(rs, region, names), 0, r)
  {
    var os := OutcomesAsWritten(rs, region, names);
    KeepAcceptedSurvivors(os, 0);
    KeepAccepted(os, 0)
  }

  /** Whenever no identity path is declared, the as-written batch yields no
      feature at all: every record either fails validation or throws at the
      identity lookup. */
  lemma UndeclaredIdentityDropsEveryRecord(rs: seq<Resolved>, region: Region, names: seq<string>)
    requires forall i :: 0 <= i < |rs| ==> rs[i].identity.None?
    ensures ParseRecordsAsWritten(rs, region, names) == []
  {
    NothingAcceptedKeepsNothing(OutcomesAsWritten(rs, region, names), 0);
  }

  /** The lookups of every record of a records array. */
  function ResolveAll(xs: seq<Json>, m: FieldMapping): (rs: seq<Resolved>)
    ensures |rs| == |xs|
    ensures forall i :: 0 <= i < |xs| ==> rs[i] == Resolve(xs[i], m)
  {
    seq(|xs|, i requires 0 <= i < |xs| => Resolve(xs[i], m))
  }

  /** `parseAlignments`, corrected: no features when the records value is not
      an array; otherwise the batch over the records' lookups. */
  function ParseAlignments(data: Json, region: Region, m: FieldMapping,
                           names: seq<string>): (r: seq<Feature>)
    ensures AlignmentRecords(data, m).None? ==> r == []
    ensures AlignmentRecords(data, m).Some? ==>
      var xs := AlignmentRecords(data, m).value;
      SurvivorsFrom(seq(|xs|, i requires 0 <= i < |xs| => ParseAlignment(xs[i], i, region, m, names)), 0, r)
    ensures forall k :: 0 <= k < |r| ==> WellFormed(r[k])
  {
    match AlignmentRecords(data, m)
    case None => []
    case Some(xs) =>
      assert Outcomes(ResolveAll(xs, m), region, names)
          == seq(|xs|, i requires 0 <= i < |xs| => ParseAlignment(xs[i], i, region, m, names));
      ParseRecords(ResolveAll(xs, m), region, names)
  }

  /** `parseAlignments` as written. */
  function ParseAlignmentsAsWritten(data: Json, region: Region, m: FieldMapping,
                                    names: seq<string>): (r: seq<Feature>)
    ensures AlignmentRecords(data, m).None? ==> r == []
    ensures AlignmentRecords(data, m).Some? ==>
      var xs := AlignmentRecords(data, m).value;
      SurvivorsFrom(seq(|xs|, i requires 0 <= i < |xs| => ParseAlignmentAsWritten(xs[i], i, region, m, names)),
                    0, r)
  {
    match AlignmentRecords(data, m)
    case None => []
    case Some(xs) =>
      assert OutcomesAsWritten(ResolveAll(xs, m), region, names)
          == seq(|xs|, i requires 0 <= i < |xs| => ParseAlignmentAsWritten(xs[i], i, region, m, names));
      ParseRecordsAsWritten(ResolveAll(xs, m), region, names)
  }

  /** Each record of the array is kept exactly when `parseAlignment` accepts
      it on its own, and then its feature appears with its array index. */
  lemma ParseAlignmentsKeepsAccepted(data: Json, region: Region, m: FieldMapping,
                                     names: seq<string>, i: nat)
    requires AlignmentRecords(data, m).Some? && i < |AlignmentRecords(data, m).value|
    ensures
      var xs := AlignmentRecords(data, m).value;
      var o := ParseAlignment(xs[i], i, region, m, names);
      (o.Accepted? <==> exists k :: 0 <= k < |ParseAlignments(data, region, m, names)|
                                    && ParseAlignments(data, region, m, names)[k].syntenyId == i)
  {
    var xs := AlignmentRecords(data, m).value;
    var rs := ResolveAll(xs, m);
    var r := ParseRecords(rs, region, names);
    assert ParseAlignments(data, region, m, names) == r;
    assert rs[i] == Resolve(xs[i], m);
  }

  /** With no identity path declared, as written the adapter emits no feature
      for any body at all. */
  lemma AsWrittenUndeclaredIdentityEmitsNothing(data: Json, region: Region, m: FieldMapping,
                                                names: seq<string>)
    requires m.identityField.None?
    ensures ParseAlignmentsAsWritten(data, region, m, names) == []
  {
    if AlignmentRecords(data, m).Some? {
      var rs := ResolveAll(AlignmentRecords(data, m).value, m);
      UndeclaredIdentityDropsEveryRecord(rs, region, names);
    }
  }

  /** The schema's own mapping declares no identity path, so as written the
      adapter emits no feature with its default configuration. */
  lemma DefaultSchemaDropsEveryRecord(data: Json, region: Region, names: seq<string>)
    ensures ParseAlignmentsAsWritten(data, region, DefaultMapping, names) == []
  {
    AsWrittenUndeclaredIdentityEmitsNothing(data, region, DefaultMapping, names);
  }

  /** A body whose records path holds a non-array value (an object, say) yields
      no feature, and no error. */
  lemma NonArrayBodyYieldsNothing(data: Json, region: Region, m: FieldMapping,
                                  names: seq<string>, fields: map<string, Json>)
    requires Field(data, m.alignmentsField) == Some(JObj(fields))
    ensures ParseAlignments(data, region, m, names) == []
  {
  }
}
