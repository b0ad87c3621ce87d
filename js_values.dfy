/**
 * JSON-like JavaScript values, as far as the generator reads them: indexing an
 * object by a key, turning a value into text inside a template literal, and the
 * recursive merge of a schema's `doc` override onto the built-in label table.
 */
module JsValues {
  import opened JsStrings

  datatype Option<T> = None | Some(value: T)

  /** A computation that either yields a value or throws (a JavaScript `TypeError`). */
  datatype Outcome<T> = Ok(value: T) | Thrown

  /** `undefined`, `null`, a string, or a plain object whose own keys are listed in enumeration order. */
  datatype Value = Undef | Null | Str(s: string) | Obj(fields: seq<(string, Value)>)

  /** The values whose indexing throws. */
  predicate Nullish(v: Value) {
    v.Undef? || v.Null?
  }

  /** `obj[k]` on an object: the first entry named `k`, or `undefined`. */
  function Get(fields: seq<(string, Value)>, k: string): (r: Value)
    ensures r != Undef ==> exists i :: 0 <= i < |fields| && fields[i] == (k, r)
    ensures (forall i :: 0 <= i < |fields| ==> fields[i].0 != k) ==> r == Undef
    ensures forall i :: 0 <= i < |fields| && fields[i].0 == k && (forall j :: 0 <= j < i ==> fields[j].0 != k) ==>
      r == fields[i].1
  {
    if fields == [] then Undef
    else if fields[0].0 == k then fields[0].1
    else Get(fields[1..], k)
  }

  /** `v[k]` on a value that does not throw; a string has no named members in this model. */
  function Index(v: Value, k: string): Value
    requires !Nullish(v)
  {
    match v
    case Str(_) => Undef
    case Obj(fields) => Get(fields, k)
  }

  /** The keys of an object, in order (`Object.keys`). */
  function Keys(fields: seq<(string, Value)>): (r: seq<string>)
    ensures |r| == |fields| && forall i :: 0 <= i < |fields| ==> r[i] == fields[i].0
  {
    if fields == [] then [] else [fields[0].0] + Keys(fields[1..])
  }

  /** `${v}` in a template literal. */
  function ToStr(v: Value): string {
    match v
    case Undef => "undefined"
    case Null => "null"
    case Str(s) => s
    case Obj(_) => "[object Object]"
  }

  /** `${o}` for a value that is a string or `undefined`. */
  function Show(o: Option<string>): string {
    match o
    case None => "undefined"
    case Some(s) => s
  }

  /** The recursive merge of `b` onto `a`: objects merge key by key, an `undefined`
      override keeps what `a` had, and any other override replaces it. */
  function Merge(a: Value, b: Value): Value
    decreases a, 1, 0
  {
    if a.Obj? && b.Obj? then Obj(MergeFrom(a, 0, b.fields) + Additions(a.fields, b.fields))
    else if b.Undef? then a
    else b
  }

  /** The entries of `a` from position `i` on, each merged with the override of the same key. */
  function MergeFrom(a: Value, i: nat, over: seq<(string, Value)>): (r: seq<(string, Value)>)
    requires a.Obj? && i <= |a.fields|
    decreases a, 0, |a.fields| - i
    ensures |r| == |a.fields| - i
    ensures forall j :: 0 <= j < |r| ==> r[j].0 == a.fields[i + j].0
  {
    if i == |a.fields| then []
    else
      var (k, v) := a.fields[i];
      [(k, Merge(v, Get(over, k)))] + MergeFrom(a, i + 1, over)
  }

  /** The override entries whose keys `a` does not have, in override order. */
  function Additions(existing: seq<(string, Value)>, over: seq<(string, Value)>): (r: seq<(string, Value)>)
    ensures forall j :: 0 <= j < |r| ==> r[j] in over && r[j].0 !in Keys(existing)
  {
    if over == [] then []
    else if over[0].0 in Keys(existing) then Additions(existing, over[1..])
    else [over[0]] + Additions(existing, over[1..])
  }

  lemma {:induction false} GetMergeFrom(a: Value, i: nat, over: seq<(string, Value)>, k: string)
    requires a.Obj? && i <= |a.fields|
    decreases |a.fields| - i
    ensures Get(MergeFrom(a, i, over), k) ==
      if k in Keys(a.fields[i..]) then Merge(Get(a.fields[i..], k), Get(over, k)) else Undef
  {
    if i < |a.fields| {
      GetMergeFrom(a, i + 1, over, k);
      assert a.fields[i..][1..] == a.fields[i + 1..];
      assert Keys(a.fields[i..]) == [a.fields[i].0] + Keys(a.fields[i + 1..]);
    }
  }

  lemma {:induction false} GetAdditions(existing: seq<(string, Value)>, over: seq<(string, Value)>, k: string)
    requires k !in Keys(existing)
    ensures Get(Additions(existing, over), k) == Get(over, k)
  {
    if over != [] {
      GetAdditions(existing, over[1..], k);
    }
  }

  lemma {:induction false} GetAppend(p: seq<(string, Value)>, q: seq<(string, Value)>, k: string)
    ensures Get(p + q, k) == if k in Keys(p) then Get(p, k) else Get(q, k)
  {
    if p != [] {
      assert (p + q)[1..] == p[1..] + q;
      GetAppend(p[1..], q, k);
      assert Keys(p) == [p[0].0] + Keys(p[1..]);
    } else {
      assert p + q == q;
    }
  }

  /** Reading a key of a merged object is merging what each side has under that key. */
  lemma {:induction false} IndexMerge(a: Value, b: Value, k: string)
    requires a.Obj? && b.Obj?
    ensures Index(Merge(a, b), k) == Merge(Index(a, k), Index(b, k))
  {
    var front := MergeFrom(a, 0, b.fields);
    assert a.fields[0..] == a.fields;
    GetMergeFrom(a, 0, b.fields, k);
    assert Keys(front) == Keys(a.fields);
    GetAppend(front, Additions(a.fields, b.fields), k);
    if k !in Keys(a.fields) {
      GetAdditions(a.fields, b.fields, k);
      assert Get(a.fields, k) == Undef;
    }
  }
}
