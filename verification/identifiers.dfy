/** The text identifiers the adapter builds from coordinates: the alignment's
    `uniqueId` (`q:qs-qe_t:ts-te`) and the cache keys (`asm:ref:start-end` and
    `global:asm`), with decoders that read them back. */
module Identifiers {
  import opened Options
  import opened JsText

  /** `${name}:${start}-${end}`. */
  function Locus(name: string, start: int, end: int): string {
    name + ":" + Dec(start) + "-" + Dec(end)
  }

  /** The alignment's `uniqueId`: query locus, `_`, target locus. */
  function AlignmentId(qName: string, qStart: int, qEnd: int,
                       tName: string, tStart: int, tEnd: int): string {
    Locus(qName, qStart, qEnd) + "_" + Locus(tName, tStart, tEnd)
  }

  /** The per-region cache key `${asm}:${refName}:${start}-${end}`. */
  function RegionKey(asm: string, refName: string, start: int, end: int): string {
    asm + ":" + Locus(refName, start, end)
  }

  /** The whole-dataset cache key `global:${asm}`. */
  function GlobalKey(asm: string): string {
    "global:" + asm
  }

  /** Whole-dataset keys of two assemblies coincide exactly when the names do. */
  lemma GlobalKeyInjective(a: string, b: string)
    ensures GlobalKey(a) == GlobalKey(b) <==> a == b
  {
    if GlobalKey(a) == GlobalKey(b) {
      assert a == GlobalKey(a)[7..];
      assert b == GlobalKey(b)[7..];
    }
  }

  /** Text before and after the first occurrence of `c`. */
  function SplitAtFirst(s: string, c: char): (r: Option<(string, string)>)
    ensures r.Some? ==> c !in r.value.0 && s == r.value.0 + [c] + r.value.1
    ensures r.None? ==> c !in s
    decreases |s|
  {
    if |s| == 0 then None
    else if s[0] == c then Some(([], s[1..]))
    else
      match SplitAtFirst(s[1..], c)
      case None => None
      case Some((before, after)) => Some(([s[0]] + before, after))
  }

  /** The split point is determined: no `c` before it. */
  lemma {:induction false} SplitAtFirstOf(a: string, c: char, b: string)
    requires c !in a
    ensures SplitAtFirst(a + [c] + b, c) == Some((a, b))
    decreases |a|
  {
    if |a| == 0 {
      assert a + [c] + b == [c] + b;
    } else {
      assert (a + [c] + b)[0] == a[0];
      assert (a + [c] + b)[1..] == a[1..] + [c] + b;
      SplitAtFirstOf(a[1..], c, b);
      assert [a[0]] + a[1..] == a;
    }
  }

  /** An integer `-?digits` at the front of `s`, and what follows it. */
  function ReadInt(s: string): Option<(int, string)> {
    var negative := |s| > 0 && s[0] == '-';
    var body := if negative then s[1..] else s;
    var k := DigitRun(body);
    if k == 0 then None
    else
      var magnitude: int := DigitsValue(body[..k]);
      Some((if negative then -magnitude else magnitude, body[k..]))
  }

  lemma {:induction false} ReadDigits(ds: string, rest: string)
    requires |ds| > 0 && AllDigits(ds)
    requires |rest| == 0 || !IsDigit(rest[0])
    ensures |ds + rest| > 0 && (ds + rest)[0] != '-'
    ensures DigitRun(ds + rest) == |ds|
    ensures (ds + rest)[..|ds|] == ds && (ds + rest)[|ds|..] == rest
  {
    assert (ds + rest)[0] == ds[0];
    DigitRunOfDigitsThen(ds, rest);
    assert (ds + rest)[..|ds|] == ds;
    assert (ds + rest)[|ds|..] == rest;
  }

  /** `ReadInt` reads back what `String(n)` wrote, when a non-digit follows. */
  lemma {:induction false} ReadIntOfDec(n: int, rest: string)
    requires |rest| == 0 || !IsDigit(rest[0])
    ensures ReadInt(Dec(n) + rest) == Some((n, rest))
  {
    if n < 0 {
      ReadIntOfNegative(n, rest);
    } else {
      ReadIntOfNonNegative(n, rest);
    }
  }

  lemma {:induction false} ReadIntOfNegative(n: int, rest: string)
    requires n < 0
    requires |rest| == 0 || !IsDigit(rest[0])
    ensures ReadInt(Dec(n) + rest) == Some((n, rest))
  {
    var ds := Digits(-n);
    DigitsRoundTrip(-n);
    DigitsShape(-n);
    ReadDigits(ds, rest);
    var t := "-" + (ds + rest);
    assert Dec(n) + rest == t;
    assert t[0] == '-' && t[1..] == ds + rest;
  }

  lemma {:induction false} ReadIntOfNonNegative(n: int, rest: string)
    requires n >= 0
    requires |rest| == 0 || !IsDigit(rest[0])
    ensures ReadInt(Dec(n) + rest) == Some((n, rest))
  {
    var ds := Digits(n);
    DigitsRoundTrip(n);
    DigitsShape(n);
    ReadDigits(ds, rest);
    assert Dec(n) + rest == ds + rest;
  }

  /** Reads `name:start-end` from the front of `s`; the name runs to the first colon. */
  function ReadLocus(s: string): Option<(string, int, int, string)> {
    match SplitAtFirst(s, ':')
    case None => None
    case Some((name, afterName)) =>
      match ReadInt(afterName)
      case None => None
      case Some((start, r1)) =>
        if |r1| == 0 || r1[0] != '-' then None
        else
          match ReadInt(r1[1..])
          case None => None
          case Some((end, r2)) => Some((name, start, end, r2))
  }

  /** A locus whose name has no colon is read back exactly. */
  lemma {:induction false} ReadLocusOfLocus(name: string, start: int, end: int, rest: string)
    requires ':' !in name
    requires |rest| == 0 || !IsDigit(rest[0])
    ensures ReadLocus(Locus(name, start, end) + rest) == Some((name, start, end, rest))
  {
    var afterName := Dec(start) + ("-" + (Dec(end) + rest));
    assert Locus(name, start, end) + rest == name + [':'] + afterName;
    SplitAtFirstOf(name, ':', afterName);
    ReadIntOfDec(start, "-" + (Dec(end) + rest));
    var r1 := "-" + (Dec(end) + rest);
    assert r1[0] == '-' && r1[1..] == Dec(end) + rest;
    ReadIntOfDec(end, rest);
  }

  /** Reads a `uniqueId` back into its query and target coordinates. */
  function DecodeAlignmentId(id: string): Option<(string, int, int, string, int, int)> {
    match ReadLocus(id)
    case None => None
    case Some((qName, qStart, qEnd, r1)) =>
      if |r1| == 0 || r1[0] != '_' then None
      else
        match ReadLocus(r1[1..])
        case None => None
        case Some((tName, tStart, tEnd, r2)) =>
          if r2 == [] then Some((qName, qStart, qEnd, tName, tStart, tEnd)) else None
  }

  /** The `uniqueId` carries all six coordinates when neither name has a colon. */
  lemma AlignmentIdRoundTrip(qName: string, qStart: int, qEnd: int,
                             tName: string, tStart: int, tEnd: int)
    requires ':' !in qName && ':' !in tName
    ensures DecodeAlignmentId(AlignmentId(qName, qStart, qEnd, tName, tStart, tEnd))
            == Some((qName, qStart, qEnd, tName, tStart, tEnd))
  {
    var t := Locus(tName, tStart, tEnd);
    var r1 := "_" + t;
    assert AlignmentId(qName, qStart, qEnd, tName, tStart, tEnd) == Locus(qName, qStart, qEnd) + r1;
    ReadLocusOfLocus(qName, qStart, qEnd, r1);
    assert r1[0] == '_' && r1[1..] == t;
    assert t + [] == t;
    ReadLocusOfLocus(tName, tStart, tEnd, []);
  }

  /** Hence two alignments with colon-free names share a `uniqueId` only when
      all six coordinates agree. */
  lemma AlignmentIdInjective(qName: string, qStart: int, qEnd: int,
                             tName: string, tStart: int, tEnd: int,
                             qName': string, qStart': int, qEnd': int,
                             tName': string, tStart': int, tEnd': int)
    requires ':' !in qName && ':' !in tName && ':' !in qName' && ':' !in tName'
    requires AlignmentId(qName, qStart, qEnd, tName, tStart, tEnd)
             == AlignmentId(qName', qStart', qEnd', tName', tStart', tEnd')
    ensures qName == qName' && qStart == qStart' && qEnd == qEnd'
    ensures tName == tName' && tStart == tStart' && tEnd == tEnd'
  {
    AlignmentIdRoundTrip(qName, qStart, qEnd, tName, tStart, tEnd);
    AlignmentIdRoundTrip(qName', qStart', qEnd', tName', tStart', tEnd');
  }

  /** Without the colon-free condition the `uniqueId` is ambiguous: a target
      named `b:3-4_c` and a query named `a:1-2_b` produce the same text. */
  lemma AlignmentIdCollision()
    ensures AlignmentId("a", 1, 2, "b:3-4_c", 5, 6) == AlignmentId("a:1-2_b", 3, 4, "c", 5, 6)
  {
    assert Dec(1) == "1" && Dec(2) == "2" && Dec(3) == "3";
    assert Dec(4) == "4" && Dec(5) == "5" && Dec(6) == "6";
    assert Locus("a", 1, 2) == "a:1-2" && Locus("b:3-4_c", 5, 6) == "b:3-4_c:5-6";
    assert Locus("a:1-2_b", 3, 4) == "a:1-2_b:3-4" && Locus("c", 5, 6) == "c:5-6";
  }

  /** Reads a per-region cache key back into assembly, reference and range. */
  function DecodeRegionKey(key: string): Option<(string, string, int, int)> {
    match SplitAtFirst(key, ':')
    case None => None
    case Some((asm, rest)) =>
      match ReadLocus(rest)
      case None => None
      case Some((refName, start, end, r)) =>
        if r == [] then Some((asm, refName, start, end)) else None
  }

  /** A per-region key carries its region when the names have no colon. */
  lemma RegionKeyRoundTrip(asm: string, refName: string, start: int, end: int)
    requires ':' !in asm && ':' !in refName
    ensures DecodeRegionKey(RegionKey(asm, refName, start, end)) == Some((asm, refName, start, end))
  {
    var l := Locus(refName, start, end);
    assert RegionKey(asm, refName, start, end) == asm + [':'] + l;
    SplitAtFirstOf(asm, ':', l);
    assert l + [] == l;
    ReadLocusOfLocus(refName, start, end, []);
  }

  /** Hence distinct colon-free regions never share a per-region cache key. */
  lemma RegionKeyInjective(asm: string, refName: string, start: int, end: int,
                           asm': string, refName': string, start': int, end': int)
    requires ':' !in asm && ':' !in refName && ':' !in asm' && ':' !in refName'
    requires RegionKey(asm, refName, start, end) == RegionKey(asm', refName', start', end')
    ensures asm == asm' && refName == refName' && start == start' && end == end'
  {
    RegionKeyRoundTrip(asm, refName, start, end);
    RegionKeyRoundTrip(asm', refName', start', end');
  }

  /** With a colon in a name, regions of two different assemblies share a key. */
  lemma RegionKeyCollision()
    ensures RegionKey("a:b", "c", 1, 2) == RegionKey("a", "b:c", 1, 2)
  {
    assert Dec(1) == "1" && Dec(2) == "2";
  }
}
