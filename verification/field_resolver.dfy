/** Dotted-path lookup into a JSON record (`getNestedValue`): the path is split
    on `.` and each piece is looked up in the value found so far, with
    `undefined` absorbing every later step. */
module FieldResolver {
  import opened Options
  import opened JsonValue
  import JsText

  /** The array index a property key denotes: canonical decimal text, with no
      leading zero except for `"0"` itself. */
  function ArrayIndex(key: string): (r: Option<nat>)
    ensures r.Some? ==> key == JsText.Digits(r.value)
  {
    if 0 < |key| && JsText.DigitRun(key) == |key| && (key[0] != '0' || |key| == 1) then
      JsText.DigitRunIsMaximal(key);
      assert key[..|key|] == key;
      CanonicalDigits(key);
      Some(JsText.DigitsValue(key))
    else None
  }

  /** Canonical digit text is the rendering of its own value. */
  lemma {:induction false} CanonicalDigits(key: string)
    requires 0 < |key| && JsText.AllDigits(key) && (key[0] != '0' || |key| == 1)
    ensures JsText.Digits(JsText.DigitsValue(key)) == key
    decreases |key|
  {
    var n := JsText.DigitsValue(key);
    if |key| > 1 {
      var init := key[..|key| - 1];
      assert init[0] == key[0];
      CanonicalDigits(init);
      var d := JsText.DigitValue(key[|key| - 1]);
      var m := JsText.DigitsValue(init);
      JsText.DigitsShape(m);
      assert m != 0;
      assert n == m * 10 + d;
      assert n / 10 == m && n % 10 == d;
      assert JsText.DigitChar(d) == key[|key| - 1];
      assert key == init + [key[|key| - 1]];
    } else {
      assert |key| == 1 && key[..|key| - 1] == [];
      assert JsText.DigitsValue([]) == 0;
      assert n == JsText.DigitValue(key[0]);
      assert JsText.DigitChar(n) == key[0];
      assert key == [key[0]];
    }
  }

  /** Every array index is read back from its own decimal text. */
  lemma ArrayIndexOfDigits(n: nat)
    ensures ArrayIndex(JsText.Digits(n)) == Some(n)
  {
    var ds := JsText.Digits(n);
    JsText.DigitsShape(n);
    JsText.DigitRunOfDigitsThen(ds, "");
    assert ds + "" == ds;
    JsText.DigitsRoundTrip(n);
  }

  /** `cur?.[key]` on a JSON value: an object's own member, an array's or a
      string's element or `length`, and `undefined` for everything else. */
  function Member(cur: Value, key: string): Value {
    match cur
    case None => None
    case Some(j) =>
      match j
      case JObj(fields) => if key in fields then Some(fields[key]) else None
      case JArr(items) =>
        if key == "length" then Some(JNum(|items|))
        else
          var i := ArrayIndex(key);
          if i.Some? && i.value < |items| then Some(items[i.value]) else None
      case JStr(s) =>
        if key == "length" then Some(JNum(|s|))
        else
          var i := ArrayIndex(key);
          if i.Some? && i.value < |s| then Some(JStr([s[i.value]])) else None
      case _ => None
  }

  /** The left fold of `Member` over the keys. */
  function Walk(cur: Value, keys: seq<string>): Value
    decreases |keys|
  {
    if |keys| == 0 then cur else Walk(Member(cur, keys[0]), keys[1..])
  }

  /** `getNestedValue(obj, path)`. */
  function GetNestedValue(obj: Json, path: string): Value {
    Walk(Some(obj), JsText.Split(path, '.'))
  }

  /** Once a step yields `undefined`, so does the rest of the walk: the lookup
      never fails, it only comes back empty. */
  lemma {:induction false} WalkUndefined(keys: seq<string>)
    ensures Walk(None, keys) == None
    decreases |keys|
  {
    if |keys| > 0 {
      WalkUndefined(keys[1..]);
    }
  }

  /** Walking two key lists in turn is walking their concatenation. */
  lemma {:induction false} WalkAppend(cur: Value, a: seq<string>, b: seq<string>)
    ensures Walk(cur, a + b) == Walk(Walk(cur, a), b)
    decreases |a|
  {
    if |a| > 0 {
      assert (a + b)[0] == a[0];
      assert (a + b)[1..] == a[1..] + b;
      WalkAppend(Member(cur, a[0]), a[1..], b);
    } else {
      assert a + b == b;
    }
  }

  /** If any prefix of the keys comes back `undefined`, the whole lookup does. */
  lemma UndefinedPrefixPropagates(cur: Value, keys: seq<string>, i: nat)
    requires i <= |keys| && Walk(cur, keys[..i]) == None
    ensures Walk(cur, keys) == None
  {
    assert keys == keys[..i] + keys[i..];
    WalkAppend(cur, keys[..i], keys[i..]);
    WalkUndefined(keys[i..]);
  }

  /** A path without a dot is a plain top-level lookup. */
  lemma TopLevelPath(obj: Json, path: string)
    requires '.' !in path
    ensures GetNestedValue(obj, path) == Member(Some(obj), path)
  {
    JsText.SplitWithoutSeparator(path, '.');
    assert Walk(Some(obj), [path]) == Walk(Member(Some(obj), path), []);
  }

  /** `getNestedValue(obj, p + "." + q)` continues from `getNestedValue(obj, p)`. */
  lemma NestedPath(obj: Json, p: string, q: string)
    ensures GetNestedValue(obj, p + "." + q) == Walk(GetNestedValue(obj, p), JsText.Split(q, '.'))
  {
    JsText.SplitAppend(p, q, '.');
    WalkAppend(Some(obj), JsText.Split(p, '.'), JsText.Split(q, '.'));
  }

  /** In particular, a last segment without a dot is one member lookup away. */
  lemma LastSegment(obj: Json, p: string, key: string)
    requires '.' !in key
    ensures GetNestedValue(obj, p + "." + key) == Member(GetNestedValue(obj, p), key)
  {
    NestedPath(obj, p, key);
    JsText.SplitWithoutSeparator(key, '.');
  }

  /** A two-segment path `p.q` is two member lookups. */
  lemma TwoSegmentPath(obj: Json, p: string, q: string)
    requires '.' !in p && '.' !in q
    ensures GetNestedValue(obj, p + "." + q) == Member(Member(Some(obj), p), q)
  {
    LastSegment(obj, p, q);
    TopLevelPath(obj, p);
  }

  /** The documented example: `query.name` of `{query: {name: "chr1"}}` is `"chr1"`. */
  lemma QueryNameExample()
    ensures GetNestedValue(JObj(map["query" := JObj(map["name" := JStr("chr1")])]), "query.name")
            == Some(JStr("chr1"))
  {
    var inner := JObj(map["name" := JStr("chr1")]);
    var obj := JObj(map["query" := inner]);
    assert "query.name" == "query" + "." + "name";
    TwoSegmentPath(obj, "query", "name");
    assert Member(Some(obj), "query") == Some(inner);
    assert Member(Some(inner), "name") == Some(JStr("chr1"));
  }
}
