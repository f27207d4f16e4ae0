/** The translation lookup `t` of the language context
    (src/LanguageContext.js). A translation table is a JavaScript object
    nested to any depth; a key such as `"editRepair.successMessage"` is split
    on `.` and walked through the table of the current language. */
module Translation {
  import opened Wrappers
  import opened Strings
  import opened JsValues

  const DefaultLanguage: string := "en"

  /** The initial language: the stored `language` entry when it is a
      non-empty string, else `"en"`. */
  function InitialLanguage(stored: Option<string>): (lang: string)
    ensures stored.None? ==> lang == DefaultLanguage
    ensures stored.Some? && stored.value != "" ==> lang == stored.value
    ensures stored == Some("") ==> lang == DefaultLanguage
    ensures lang != ""
  {
    match stored
    case Some(s) => if s != "" then s else DefaultLanguage
    case None => DefaultLanguage
  }

  /** The reducer of `t`: `obj && obj[k] ? obj[k] : key`. */
  function Step(obj: Value, k: string, key: string): Value {
    if Truthy(obj) && Truthy(Get(obj, k)) then Get(obj, k) else Str(key)
  }

  /** `segs.reduce(Step, obj)` */
  function Walk(obj: Value, segs: seq<string>, key: string): (r: Value)
    ensures segs != [] ==> Truthy(r) || r == Str(key)
    decreases segs
  {
    if segs == [] then obj else Walk(Step(obj, segs[0], key), segs[1..], key)
  }

  /** The nested value reached by following every segment, each step landing
      on a truthy value; None as soon as a segment is missing or falsy. */
  function Resolve(obj: Value, segs: seq<string>): (r: Option<Value>)
    ensures segs != [] && r.Some? ==> Truthy(r.value)
    decreases segs
  {
    if segs == [] then Some(obj)
    else if Truthy(obj) && Truthy(Get(obj, segs[0])) then Resolve(Get(obj, segs[0]), segs[1..])
    else None
  }

  /** The table of the current language: `translations[language]`. */
  function Table(translations: map<string, Value>, language: string): Value {
    Get(Obj(translations), language)
  }

  /** `t(key)` as written. */
  function TAsWritten(translations: map<string, Value>, language: string, key: string): (r: Value)
    ensures Truthy(r) || r == Str(key)
  {
    Walk(Table(translations, language), Split(key, '.'), key)
  }

  /** `t(key)` as intended: the translation when every segment resolves to a
      truthy value, the key itself otherwise. */
  function T(translations: map<string, Value>, language: string, key: string): (r: Value)
    ensures Truthy(r) || r == Str(key)
  {
    match Resolve(Table(translations, language), Split(key, '.'))
    case Some(v) => v
    case None => Str(key)
  }

  /** When the key resolves, both readings of `t` return the translation. */
  lemma {:induction false} WalkResolved(obj: Value, segs: seq<string>, key: string)
    requires Resolve(obj, segs).Some?
    ensures Walk(obj, segs, key) == Resolve(obj, segs).value
    decreases segs
  {
    if segs != [] {
      WalkResolved(Get(obj, segs[0]), segs[1..], key);
    }
  }

  lemma TFound(translations: map<string, Value>, language: string, key: string, v: Value)
    requires Resolve(Table(translations, language), Split(key, '.')) == Some(v)
    ensures T(translations, language, key) == v
    ensures TAsWritten(translations, language, key) == v
    ensures Truthy(v)
  {
    WalkResolved(Table(translations, language), Split(key, '.'), key);
  }

  /** Once a prefix of the segments misses (a segment is absent or falsy),
      the intended `t` gives back the key, whatever segments follow. */
  lemma TMissing(translations: map<string, Value>, language: string, key: string, i: nat)
    requires i < |Split(key, '.')|
    requires Resolve(Table(translations, language), Split(key, '.')[..i + 1]).None?
    ensures T(translations, language, key) == Str(key)
  {
    ResolvePrefixNone(Table(translations, language), Split(key, '.'), i);
  }

  lemma {:induction false} ResolvePrefixNone(obj: Value, segs: seq<string>, i: nat)
    requires i < |segs| && Resolve(obj, segs[..i + 1]).None?
    ensures Resolve(obj, segs).None?
    decreases segs
  {
    if Truthy(obj) && Truthy(Get(obj, segs[0])) {
      assert segs[..i + 1][0] == segs[0];
      assert i > 0;
      assert segs[..i + 1][1..] == segs[1..][..i];
      ResolvePrefixNone(Get(obj, segs[0]), segs[1..], i - 1);
    }
  }

  /** After the first miss, at segment `m`, the as-written reducer carries
      the key string on; it stays there while no later segment names a truthy
      property of that string. */
  lemma {:induction false} WalkUnresolved(obj: Value, segs: seq<string>, key: string, m: nat)
    requires m < |segs| && Resolve(obj, segs[..m]).Some? && Resolve(obj, segs[..m + 1]).None?
    requires forall i :: m < i < |segs| ==> !Truthy(Get(Str(key), segs[i]))
    ensures Walk(obj, segs, key) == Str(key)
    decreases segs
  {
    if m == 0 {
      assert segs[..1] == [segs[0]];
      assert forall i :: 0 <= i < |segs[1..]| ==> segs[1..][i] == segs[i + 1];
      WalkOnKey(segs[1..], key);
    } else {
      assert segs[..m][0] == segs[0];
      assert segs[..m][1..] == segs[1..][..m - 1];
      assert segs[..m + 1][1..] == segs[1..][..m];
      assert forall i :: m - 1 < i < |segs[1..]| ==> segs[1..][i] == segs[i + 1];
      WalkUnresolved(Get(obj, segs[0]), segs[1..], key, m - 1);
    }
  }

  /** A key that misses has a first missing segment. */
  lemma {:induction false} FirstMiss(obj: Value, segs: seq<string>) returns (m: nat)
    requires Resolve(obj, segs).None?
    ensures m < |segs| && Resolve(obj, segs[..m]).Some? && Resolve(obj, segs[..m + 1]).None?
    decreases segs
  {
    assert segs[..1] == [segs[0]];
    if Truthy(obj) && Truthy(Get(obj, segs[0])) {
      var m' := FirstMiss(Get(obj, segs[0]), segs[1..]);
      m := m' + 1;
      assert segs[..m][0] == segs[0];
      assert segs[..m][1..] == segs[1..][..m'];
      assert segs[..m + 1][1..] == segs[1..][..m' + 1];
    } else {
      m := 0;
    }
  }

  lemma {:induction false} WalkOnKey(segs: seq<string>, key: string)
    requires forall i :: 0 <= i < |segs| ==> !Truthy(Get(Str(key), segs[i]))
    ensures Walk(Str(key), segs, key) == Str(key)
  {
    if segs != [] {
      WalkOnKey(segs[1..], key);
    }
  }

  /** The two readings agree on every key none of whose segments is an index
      into the key or `length`. */
  lemma TAgrees(translations: map<string, Value>, language: string, key: string)
    requires forall k :: k in Split(key, '.') ==> !Truthy(Get(Str(key), k))
    ensures TAsWritten(translations, language, key) == T(translations, language, key)
  {
    var segs := Split(key, '.');
    if Resolve(Table(translations, language), segs).Some? {
      WalkResolved(Table(translations, language), segs, key);
    } else {
      var m := FirstMiss(Table(translations, language), segs);
      WalkUnresolved(Table(translations, language), segs, key, m);
    }
  }

  /** The key `"0.x"` looked up in an empty table: the first segment misses
      and `"x"` names no property of the string `"0.x"`, so `t` returns the
      key, although the missing segment `"0"` indexes that string. */
  lemma TAsWrittenMissBeforeIndex()
    ensures TAsWritten(map["en" := Obj(map[])], "en", "0.x") == Str("0.x")
  {
    var key := "0.x";
    var table := Table(map["en" := Obj(map[])], "en");
    assert Split(key, '.') == ["0", "x"] by {
      SplitJoin(["0", "x"], '.');
    }
    assert ParseNat("x").None?;
    assert Resolve(table, ["0", "x"][..0]) == Some(table);
    assert ["0", "x"][..1] == ["0"];
    WalkUnresolved(table, ["0", "x"], key, 0);
  }

  /** The key `"x.0"` looked up in an empty table: the first segment misses,
      the reducer falls back to the string `"x.0"`, and the second segment
      `"0"` then indexes that string, so `t` returns `"x"`, not the key. */
  lemma TAsWrittenIndexesFallback()
    ensures TAsWritten(map["en" := Obj(map[])], "en", "x.0") == Str("x")
    ensures T(map["en" := Obj(map[])], "en", "x.0") == Str("x.0")
  {
    var key := "x.0";
    assert Split(key, '.') == ["x", "0"] by {
      SplitJoin(["x", "0"], '.');
    }
    ParseNatToString(0);
    assert Get(Str(key), "0") == Str("x");
  }
}
