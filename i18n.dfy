/**
 * The label function built by `getI18nFn` (lib/index.js): a dotted path is
 * walked segment by segment through the locale dictionary; indexing `undefined`
 * or `null` throws, and the thrown error turns into the placeholder `i18n_<path>`.
 */
module I18n {
  import opened JsStrings
  import opened JsValues
  import Config

  /** Indexing `v` by each segment in turn; `None` when some step indexes a nullish value. */
  function Walk(v: Value, segs: seq<string>): Option<Value>
    decreases |segs|
  {
    if segs == [] then Some(v)
    else if Nullish(v) then None
    else Walk(Index(v, segs[0]), segs[1..])
  }

  /** `v?.[k]`: indexing that yields `undefined` instead of throwing. */
  function SafeIndex(v: Value, k: string): Value {
    if Nullish(v) then Undef else Index(v, k)
  }

  /** The optional chain `v?.[s0]?.[s1]…`, an independent reading of the same path. */
  function Chain(v: Value, segs: seq<string>): Value
    decreases |segs|
  {
    if segs == [] then v else SafeIndex(Chain(v, segs[..|segs| - 1]), segs[|segs| - 1])
  }

  /** The value the label function returns for `path`. */
  function Label(dict: Value, path: string): Value {
    if path == "" then dict else LabelAlong(dict, path, Split(path, '.'))
  }

  /** The label for `path` once it is split into `segs`: the value reached, or the placeholder. */
  function LabelAlong(dict: Value, path: string, segs: seq<string>): Value {
    match Walk(dict, segs)
    case None => Str("i18n_" + path)
    case Some(r) => r
  }

  /** The label function as the source runs it: a loop that shifts segments off the path. */
  method Lookup(dict: Value, path: string) returns (r: Value)
    ensures r == Label(dict, path)
  {
    if path == "" {
      return dict;
    }
    var paths := Split(path, '.');
    var result := dict;
    while |paths| > 0
      invariant Walk(result, paths) == Walk(dict, Split(path, '.'))
      decreases |paths|
    {
      if Nullish(result) {
        return Str("i18n_" + path);
      }
      result := Index(result, paths[0]);
      paths := paths[1..];
    }
    return result;
  }

  /** Walking one more segment. */
  lemma {:induction false} WalkSnoc(v: Value, s: seq<string>, x: string)
    decreases |s|
    ensures Walk(v, s + [x]) ==
      match Walk(v, s)
      case None => None
      case Some(u) => if Nullish(u) then None else Some(Index(u, x))
  {
    if s == [] {
      assert s + [x] == [x];
      assert [x][1..] == [];
    } else {
      assert (s + [x])[1..] == s[1..] + [x];
      if !Nullish(v) {
        WalkSnoc(Index(v, s[0]), s[1..], x);
      }
    }
  }

  /** The walk throws exactly when one of the values it indexes is `undefined` or `null`;
      otherwise it reaches the same value as the optional chain. */
  lemma {:induction false} WalkMatchesChain(v: Value, segs: seq<string>)
    ensures Walk(v, segs).None? <==> exists k :: 0 <= k < |segs| && Nullish(Chain(v, segs[..k]))
    ensures Walk(v, segs).Some? ==> Walk(v, segs).value == Chain(v, segs)
    decreases |segs|
  {
    if segs != [] {
      var n := |segs| - 1;
      var s, x := segs[..n], segs[n];
      assert segs == s + [x];
      WalkMatchesChain(v, s);
      WalkSnoc(v, s, x);
      assert forall k :: 0 <= k <= n ==> segs[..k] == s[..k];
      assert segs[..n] == s;
      if Walk(v, s).None? {
        var k :| 0 <= k < |s| && Nullish(Chain(v, s[..k]));
        assert Nullish(Chain(v, segs[..k]));
      } else if Nullish(Walk(v, s).value) {
        assert Nullish(Chain(v, segs[..n]));
      } else {
        forall k | 0 <= k < |segs| ensures !Nullish(Chain(v, segs[..k])) {
          if k < n {
            assert segs[..k] == s[..k];
          }
        }
      }
    }
  }

  /** The label function's three outcomes for a non-empty path: the placeholder when a value
      indexed on the way is `undefined` or `null`, and otherwise the value reached. */
  lemma {:induction false} LabelOutcome(dict: Value, path: string)
    requires path != ""
    ensures var segs := Split(path, '.');
      Label(dict, path) ==
        if exists k :: 0 <= k < |segs| && Nullish(Chain(dict, segs[..k]))
        then Str("i18n_" + path)
        else Chain(dict, segs)
  {
    WalkMatchesChain(dict, Split(path, '.'));
  }

  /** A missing dictionary (an unknown locale) makes every non-empty path a placeholder. */
  lemma {:induction false} MissingDictionaryGivesPlaceholder(dict: Value, path: string)
    requires Nullish(dict) && path != ""
    ensures Label(dict, path) == Str("i18n_" + path)
  {
    var segs := Split(path, '.');
    assert segs != [];
  }

  /** A missing last segment gives `undefined`, not the placeholder. */
  lemma {:induction false} MissingLastSegmentIsUndefined(dict: Value, path: string)
    requires path != ""
    requires var segs := Split(path, '.');
      var n := |segs| - 1;
      var parent := Walk(dict, segs[..n]);
      parent.Some? && parent.value.Obj? && segs[n] !in Keys(parent.value.fields)
    ensures Label(dict, path) == Undef
  {
    var segs := Split(path, '.');
    var n := |segs| - 1;
    assert segs == segs[..n] + [segs[n]];
    WalkSnoc(dict, segs[..n], segs[n]);
  }

  /** A two-segment path. */
  lemma {:induction false} SplitTwo(a: string, b: string)
    requires '.' !in a && '.' !in b
    ensures Split(a + "." + b, '.') == [a, b]
  {
    assert a + "." + b == a + ['.'] + b;
    SplitAt(a, b, '.');
    SplitNone(a, '.');
    SplitNone(b, '.');
  }

  /** A two-segment walk. */
  lemma {:induction false} WalkTwo(v: Value, a: string, b: string)
    ensures Walk(v, [a, b]) ==
      if Nullish(v) || Nullish(Index(v, a)) then None else Some(Index(Index(v, a), b))
  {
    if !Nullish(v) {
      assert [a, b][1..] == [b];
      assert Walk(v, [a, b]) == Walk(Index(v, a), [b]);
      if !Nullish(Index(v, a)) {
        assert [b][1..] == [];
        assert Walk(Index(v, a), [b]) == Walk(Index(Index(v, a), b), []);
      }
    }
  }

  /** A one-segment path indexes the dictionary once. */
  lemma {:induction false} LabelOne(dict: Value, a: string)
    requires a != "" && '.' !in a
    ensures Label(dict, a) == if Nullish(dict) then Str("i18n_" + a) else Index(dict, a)
  {
    SplitNone(a, '.');
    if !Nullish(dict) {
      assert [a][1..] == [];
      assert Walk(dict, [a]) == Walk(Index(dict, a), []);
    }
  }

  /** A two-segment path indexes the dictionary twice; a nullish value on the way gives the placeholder. */
  lemma {:induction false} LabelTwo(dict: Value, a: string, b: string)
    requires '.' !in a && '.' !in b
    ensures Label(dict, a + "." + b) ==
      if Nullish(dict) || Nullish(Index(dict, a)) then Str("i18n_" + (a + "." + b))
      else Index(Index(dict, a), b)
  {
    SplitTwo(a, b);
    WalkTwo(dict, a, b);
  }

  /** `props.type` against the built-in Chinese table. */
  lemma {:induction false} ZhCNTypeLabel()
    ensures Label(Config.ZhCN, "props.type") == Str("类型")
  {
    SplitTwo("props", "type");
    assert "props" + "." + "type" == "props.type";
    WalkTwo(Config.ZhCN, "props", "type");
    Config.ZhCNLabels();
  }

  /** Any label under `props` other than the three a built-in table has is `undefined` there:
      the walk succeeds and ends on a missing key, so no placeholder is produced. */
  lemma {:induction false} UnknownPropsLabel(locale: Value, k: string)
    requires locale == Config.ZhCN || locale == Config.EnUS
    requires '.' !in k && k != "type" && k != "description" && k != "level"
    ensures Label(locale, "props." + k) == Undef
  {
    assert "props." + k == "props" + "." + k;
    if locale == Config.ZhCN {
      Config.ZhCNLacks(k);
    } else {
      Config.EnUSLacks(k);
    }
    LabelTwo(locale, "props", k);
  }

  /** An unknown last label under `props` is `undefined`, which a template prints as "undefined". */
  lemma {:induction false} UnknownLabelIsUndefined()
    ensures Label(Config.ZhCN, "props.nonexistent") == Undef
    ensures Label(Config.EnUS, "props.nonexistent") == Undef
  {
    assert "props." + "nonexistent" == "props.nonexistent";
    UnknownPropsLabel(Config.ZhCN, "nonexistent");
    UnknownPropsLabel(Config.EnUS, "nonexistent");
  }
}
