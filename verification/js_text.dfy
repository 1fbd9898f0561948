/** The few JavaScript string primitives the adapter leans on: decimal rendering
    of integers (`String(n)`, template literals), `parseInt(s, 10)` and
    `String.prototype.split` on a single character, each with its inverse. */
module JsText {
  import opened Options

  predicate IsDigit(c: char) {
    '0' as int <= c as int <= '9' as int
  }

  predicate AllDigits(s: string) {
    forall i :: 0 <= i < |s| ==> IsDigit(s[i])
  }

  /** The value of a decimal digit (other characters count as zero). */
  function DigitValue(c: char): nat {
    if IsDigit(c) then (c as int) - ('0' as int) else 0
  }

  function DigitChar(d: nat): (c: char)
    requires d < 10
    ensures IsDigit(c) && DigitValue(c) == d
  {
    (('0' as int) + d) as char
  }

  /** Decimal digits of a natural number, without leading zeros. */
  function Digits(n: nat): (ds: string)
    ensures |ds| > 0
    decreases n
  {
    if n < 10 then [DigitChar(n)] else Digits(n / 10) + [DigitChar(n % 10)]
  }

  /** The rendering is all digits, and starts with `0` only for zero itself. */
  lemma {:induction false} DigitsShape(n: nat)
    ensures AllDigits(Digits(n))
    ensures Digits(n)[0] == '0' ==> n == 0
    decreases n
  {
    if n >= 10 {
      DigitsShape(n / 10);
      assert Digits(n)[0] == Digits(n / 10)[0];
    }
  }

  /** The number a string of decimal digits denotes (most significant first). */
  function DigitsValue(ds: string): nat
    decreases |ds|
  {
    if |ds| == 0 then 0 else DigitsValue(ds[..|ds| - 1]) * 10 + DigitValue(ds[|ds| - 1])
  }

  /** `String(n)` for an integer `n`: an optional minus sign, then digits. */
  function Dec(n: int): string {
    if n < 0 then "-" + Digits(-n) else Digits(n)
  }

  /** Reading back the digits of `n` gives `n`. */
  lemma {:induction false} DigitsRoundTrip(n: nat)
    ensures DigitsValue(Digits(n)) == n
  {
    if n >= 10 {
      DigitsRoundTrip(n / 10);
      var ds := Digits(n);
      assert ds[..|ds| - 1] == Digits(n / 10);
    }
  }

  /** Length of the longest prefix of `s` made of decimal digits. */
  function DigitRun(s: string): (k: nat)
    ensures k <= |s|
    decreases |s|
  {
    if |s| == 0 || !IsDigit(s[0]) then 0 else 1 + DigitRun(s[1..])
  }

  /** The run is the longest digit prefix: all digits, then a non-digit or the end. */
  lemma {:induction false} DigitRunIsMaximal(s: string)
    ensures AllDigits(s[..DigitRun(s)])
    ensures DigitRun(s) < |s| ==> !IsDigit(s[DigitRun(s)])
    decreases |s|
  {
    if |s| > 0 && IsDigit(s[0]) {
      DigitRunIsMaximal(s[1..]);
      assert s[..DigitRun(s)] == [s[0]] + s[1..][..DigitRun(s[1..])];
    }
  }

  /** A digit prefix followed by a non-digit (or nothing) is exactly the run. */
  lemma {:induction false} DigitRunOfDigitsThen(ds: string, rest: string)
    requires AllDigits(ds)
    requires |rest| == 0 || !IsDigit(rest[0])
    ensures DigitRun(ds + rest) == |ds|
    decreases |ds|
  {
    if |ds| > 0 {
      assert (ds + rest)[1..] == ds[1..] + rest;
      DigitRunOfDigitsThen(ds[1..], rest);
    }
  }

  /** Characters JavaScript's `parseInt` skips before the number: the
      WhiteSpace and LineTerminator code points of ECMAScript. */
  predicate IsJsSpace(c: char) {
    var x := c as int;
    x == 0x09 || x == 0x0A || x == 0x0B || x == 0x0C || x == 0x0D || x == 0x20
    || x == 0xA0 || x == 0x1680 || (0x2000 <= x <= 0x200A) || x == 0x2028
    || x == 0x2029 || x == 0x202F || x == 0x205F || x == 0x3000 || x == 0xFEFF
  }

  /** `s` without its leading white space. */
  function TrimStart(s: string): (t: string)
    decreases |s|
  {
    if |s| > 0 && IsJsSpace(s[0]) then TrimStart(s[1..]) else s
  }

  /** What trimming removes is a prefix of white space, and what is left does
      not start with white space. */
  lemma {:induction false} TrimStartRemovesSpace(s: string)
    ensures |TrimStart(s)| <= |s| && TrimStart(s) == s[|s| - |TrimStart(s)|..]
    ensures |TrimStart(s)| == 0 || !IsJsSpace(TrimStart(s)[0])
    ensures forall i :: 0 <= i < |s| - |TrimStart(s)| ==> IsJsSpace(s[i])
    decreases |s|
  {
    if |s| > 0 && IsJsSpace(s[0]) {
      TrimStartRemovesSpace(s[1..]);
    }
  }

  /** `parseInt(s, 10)` on a string: skip white space, take an optional sign,
      then the longest run of decimal digits; no digit at all is `NaN` (`None`). */
  function ParseIntText(s: string): Option<int> {
    ParseSigned(TrimStart(s))
  }

  /** `parseInt` after the white space: an optional sign, then digits. */
  function ParseSigned(t: string): Option<int> {
    var negative := |t| > 0 && t[0] == '-';
    var body := if |t| > 0 && (t[0] == '-' || t[0] == '+') then t[1..] else t;
    var k := DigitRun(body);
    if k == 0 then None
    else
      var magnitude: int := DigitsValue(body[..k]);
      Some(if negative then -magnitude else magnitude)
  }

  lemma {:induction false} ParseUnsignedDigits(ds: string, rest: string)
    requires |ds| > 0 && AllDigits(ds)
    requires |rest| == 0 || !IsDigit(rest[0])
    ensures ParseSigned(ds + rest) == Some(DigitsValue(ds) as int)
  {
    var body := ds + rest;
    assert body[0] == ds[0];
    DigitRunOfDigitsThen(ds, rest);
    assert body[..|ds|] == ds;
  }

  lemma {:induction false} ParseNegativeDigits(ds: string, rest: string)
    requires |ds| > 0 && AllDigits(ds)
    requires |rest| == 0 || !IsDigit(rest[0])
    ensures ParseSigned("-" + (ds + rest)) == Some(-(DigitsValue(ds) as int))
  {
    var body := ds + rest;
    var t := "-" + body;
    assert t[0] == '-';
    assert t[1..] == body;
    DigitRunOfDigitsThen(ds, rest);
    assert body[..|ds|] == ds;
  }

  /** `parseInt` reads back what `String(n)` wrote, whatever non-digit text follows. */
  lemma {:induction false} ParseIntOfDec(n: int, rest: string)
    requires |rest| == 0 || !IsDigit(rest[0])
    ensures ParseIntText(Dec(n) + rest) == Some(n)
  {
    var t := Dec(n) + rest;
    var v := ParseSigned(t);
    if n < 0 {
      ParseIntOfNegative(n, rest);
    } else {
      ParseIntOfNonNegative(n, rest);
    }
    TrimStartNoSpace(t);
    assert ParseIntText(t) == v;
  }

  lemma {:induction false} ParseIntOfNegative(n: int, rest: string)
    requires n < 0
    requires |rest| == 0 || !IsDigit(rest[0])
    ensures |Dec(n) + rest| > 0 && (Dec(n) + rest)[0] == '-'
    ensures ParseSigned(Dec(n) + rest) == Some(n)
  {
    var m: nat := -n;
    var ds := Digits(m);
    DigitsRoundTrip(m);
    DigitsShape(m);
    ParseNegativeDigits(ds, rest);
    assert Dec(n) + rest == "-" + (ds + rest);
  }

  lemma {:induction false} ParseIntOfNonNegative(n: int, rest: string)
    requires n >= 0
    requires |rest| == 0 || !IsDigit(rest[0])
    ensures |Dec(n) + rest| > 0 && IsDigit((Dec(n) + rest)[0])
    ensures ParseSigned(Dec(n) + rest) == Some(n)
  {
    var ds := Digits(n);
    DigitsRoundTrip(n);
    DigitsShape(n);
    ParseUnsignedDigits(ds, rest);
    assert Dec(n) + rest == ds + rest;
    assert (ds + rest)[0] == ds[0];
  }

  lemma TrimStartNoSpace(t: string)
    requires |t| > 0 && !IsJsSpace(t[0])
    ensures TrimStart(t) == t
  {
  }

  /** Text whose first character is neither white space, a sign nor a digit is `NaN`. */
  lemma ParseIntRejectsLeadingText(s: string)
    requires |s| == 0 || (!IsJsSpace(s[0]) && !IsDigit(s[0]) && s[0] != '-' && s[0] != '+')
    ensures ParseIntText(s) == None
  {
  }

  /** Leading white space does not change what `parseInt` reads. */
  lemma ParseIntSkipsSpace(pad: string, s: string)
    requires forall i :: 0 <= i < |pad| ==> IsJsSpace(pad[i])
    ensures ParseIntText(pad + s) == ParseIntText(s)
  {
    TrimStartSkipsSpace(pad, s);
  }

  lemma {:induction false} TrimStartSkipsSpace(pad: string, s: string)
    requires forall i :: 0 <= i < |pad| ==> IsJsSpace(pad[i])
    ensures TrimStart(pad + s) == TrimStart(s)
    decreases |pad|
  {
    if |pad| > 0 {
      var ps := pad + s;
      assert ps[0] == pad[0];
      assert IsJsSpace(ps[0]);
      assert ps[1..] == pad[1..] + s;
      assert TrimStart(ps) == TrimStart(ps[1..]);
      TrimStartSkipsSpace(pad[1..], s);
    } else {
      assert pad + s == s;
    }
  }

  /** `s.split(sep)`: the pieces between occurrences of `sep`, empty pieces
      included, so there is always at least one piece. */
  function Split(s: string, sep: char): (parts: seq<string>)
    ensures |parts| >= 1
    decreases |s|
  {
    if |s| == 0 then [""]
    else
      var rest := Split(s[1..], sep);
      if s[0] == sep then [""] + rest
      else [[s[0]] + rest[0]] + rest[1..]
  }

  /** No piece contains the separator. */
  lemma {:induction false} SplitPiecesLackSeparator(s: string, sep: char)
    ensures forall i :: 0 <= i < |Split(s, sep)| ==> sep !in Split(s, sep)[i]
    decreases |s|
  {
    if |s| > 0 {
      SplitPiecesLackSeparator(s[1..], sep);
      var rest := Split(s[1..], sep);
      if s[0] != sep {
        assert sep !in [s[0]] + rest[0];
      }
    }
  }

  /** `parts.join(sep)`. */
  function Join(parts: seq<string>, sep: char): string
    requires |parts| >= 1
    decreases |parts|
  {
    if |parts| == 1 then parts[0] else parts[0] + [sep] + Join(parts[1..], sep)
  }

  /** Splitting loses nothing: joining the pieces back gives the original text. */
  lemma {:induction false} JoinSplit(s: string, sep: char)
    ensures Join(Split(s, sep), sep) == s
    decreases |s|
  {
    if |s| > 0 {
      var rest := Split(s[1..], sep);
      JoinSplit(s[1..], sep);
      if s[0] == sep {
        assert Split(s, sep)[1..] == rest;
      } else {
        var parts := Split(s, sep);
        if |rest| == 1 {
          assert parts == [[s[0]] + rest[0]];
        } else {
          assert parts[1..] == rest[1..];
          assert Join(rest, sep) == rest[0] + [sep] + Join(rest[1..], sep);
        }
      }
    }
  }

  /** Text without the separator is a single piece. */
  lemma {:induction false} SplitWithoutSeparator(s: string, sep: char)
    requires sep !in s
    ensures Split(s, sep) == [s]
    decreases |s|
  {
    if |s| > 0 {
      assert s[0] != sep;
      assert sep !in s[1..];
      SplitWithoutSeparator(s[1..], sep);
      assert [s[0]] + s[1..] == s;
    }
  }

  /** Splitting `p + sep + q` splits `p` and `q` separately. */
  lemma {:induction false} SplitAppend(p: string, q: string, sep: char)
    ensures Split(p + [sep] + q, sep) == Split(p, sep) + Split(q, sep)
    decreases |p|
  {
    if |p| == 0 {
      assert p + [sep] + q == [sep] + q;
      assert ([sep] + q)[1..] == q;
    } else {
      var s := p + [sep] + q;
      assert s[0] == p[0];
      assert s[1..] == p[1..] + [sep] + q;
      SplitAppend(p[1..], q, sep);
    }
  }
}
