/** The parsed API payload as a Python value, with the operations the
    application applies to it: truthiness, `key in v`, `v[key]`, iteration
    and hashing, each raising the exception CPython raises (message texts as
    in CPython 3.11). */
module Payload {
  import opened Wrappers
  import Text
  import Seqs

  /** A value produced by `json.loads`. Numbers are integers: the PokeAPI
      fields read here are integral. Object fields keep document order; when
      a key repeats, the last value wins, as in `json.loads`. */
  datatype Json =
    | Null
    | Bool(b: bool)
    | Num(n: int)
    | Str(s: string)
    | Arr(items: seq<Json>)
    | Obj(fields: seq<Field>)

  datatype Field = Field(key: string, value: Json)

  /** The two exceptions the extraction code can raise. */
  datatype PyError = KeyError(key: string) | TypeError(detail: string)

  /** A Python evaluation: a value, or the exception it raised. */
  datatype Outcome<+T> = Ok(value: T) | Raise(error: PyError)

  /** `str(e)` of an exception: a KeyError shows the quoted key. */
  function ErrorText(e: PyError): string {
    match e
    case KeyError(k) => "'" + k + "'"
    case TypeError(d) => d
  }

  function TypeName(v: Json): string {
    match v
    case Null => "NoneType"
    case Bool(_) => "bool"
    case Num(_) => "int"
    case Str(_) => "str"
    case Arr(_) => "list"
    case Obj(_) => "dict"
  }

  /** `bool(v)`. */
  predicate Truthy(v: Json) {
    match v
    case Null => false
    case Bool(b) => b
    case Num(n) => n != 0
    case Str(s) => |s| > 0
    case Arr(items) => |items| > 0
    case Obj(fields) => |fields| > 0
  }

  predicate HasKey(fields: seq<Field>, key: string) {
    exists i | 0 <= i < |fields| :: fields[i].key == key
  }

  /** The value of `key` in an object: its last occurrence. */
  function Lookup(fields: seq<Field>, key: string): (r: Option<Json>)
    ensures r.Some? <==> HasKey(fields, key)
    ensures r.Some? ==> exists i | 0 <= i < |fields| ::
      fields[i] == Field(key, r.value) && forall k | i < k < |fields| :: fields[k].key != key
    decreases |fields|
  {
    if |fields| == 0 then None
    else if fields[|fields| - 1].key == key then Some(fields[|fields| - 1].value)
    else
      var init := fields[..|fields| - 1];
      assert forall i | 0 <= i < |init| :: init[i] == fields[i];
      Lookup(init, key)
  }

  /** `v[key]` with a string key. */
  function Subscript(v: Json, key: string): (r: Outcome<Json>)
    ensures r.Ok? <==> v.Obj? && HasKey(v.fields, key)
    ensures r.Ok? ==> Lookup(v.fields, key) == Some(r.value)
    ensures v.Obj? && !HasKey(v.fields, key) ==> r == Raise(KeyError(key))
    ensures !v.Obj? ==> r.Raise? && r.error.TypeError?
  {
    match v
    case Obj(fields) =>
      (match Lookup(fields, key)
       case Some(x) => Ok(x)
       case None => Raise(KeyError(key)))
    case Str(_) => Raise(TypeError("string indices must be integers, not 'str'"))
    case Arr(_) => Raise(TypeError("list indices must be integers or slices, not str"))
    case _ => Raise(TypeError("'" + TypeName(v) + "' object is not subscriptable"))
  }

  /** `key in v` with a string key. */
  function In(key: string, v: Json): (r: Outcome<bool>)
    ensures v.Obj? ==> r == Ok(HasKey(v.fields, key))
    ensures v.Arr? ==> r == Ok(Str(key) in v.items)
    ensures v.Str? ==> r == Ok(Text.ContainsSub(v.s, key))
    ensures r.Raise? <==> v.Null? || v.Bool? || v.Num?
  {
    match v
    case Obj(fields) => Ok(HasKey(fields, key))
    case Arr(items) => Ok(Str(key) in items)
    case Str(s) => Ok(Text.ContainsSub(s, key))
    case _ => Raise(TypeError("argument of type '" + TypeName(v) + "' is not iterable"))
  }

  function KeyNames(fields: seq<Field>): (r: seq<string>)
    ensures |r| == |fields|
    ensures forall i | 0 <= i < |fields| :: r[i] == fields[i].key
  {
    seq(|fields|, i requires 0 <= i < |fields| => fields[i].key)
  }

  /** The keys an object's iteration visits: each distinct key once, in
      first-occurrence order, as strings. */
  function KeyItems(fields: seq<Field>): (r: seq<Json>)
    ensures forall i | 0 <= i < |r| :: r[i].Str?
    ensures forall i, j | 0 <= i < j < |r| :: r[i] != r[j]
    ensures forall k :: Str(k) in r <==> HasKey(fields, k)
  {
    var names := KeyNames(fields);
    var keys := Seqs.Dedup(names);
    var items := seq(|keys|, i requires 0 <= i < |keys| => Str(keys[i]));
    assert forall k :: Str(k) in items <==> k in keys by {
      forall k ensures Str(k) in items <==> k in keys {
        if k in keys {
          var i :| 0 <= i < |keys| && keys[i] == k;
          assert items[i] == Str(k);
        }
      }
    }
    assert forall k :: k in names <==> HasKey(fields, k) by {
      forall k ensures k in names <==> HasKey(fields, k) {
        if HasKey(fields, k) {
          var i :| 0 <= i < |fields| && fields[i].key == k;
          assert names[i] == k;
        }
      }
    }
    items
  }

  /** The items `for x in v` visits: list items, one-character strings, or
      the distinct keys of an object in first-occurrence order. */
  function Iterate(v: Json): (r: Outcome<seq<Json>>)
    ensures v.Arr? ==> r == Ok(v.items)
    ensures v.Str? ==> (r.Ok? && |r.value| == |v.s|
                        && forall i | 0 <= i < |v.s| :: r.value[i] == Str([v.s[i]]))
    ensures v.Obj? ==> (r.Ok? && (forall i | 0 <= i < |r.value| :: r.value[i].Str?)
                        && (forall i, j | 0 <= i < j < |r.value| :: r.value[i] != r.value[j])
                        && forall k :: Str(k) in r.value <==> HasKey(v.fields, k))
    ensures r.Raise? <==> v.Null? || v.Bool? || v.Num?
  {
    match v
    case Arr(items) => Ok(items)
    case Str(s) => Ok(seq(|s|, i requires 0 <= i < |s| => Str([s[i]])))
    case Obj(fields) => Ok(KeyItems(fields))
    case _ => Raise(TypeError("'" + TypeName(v) + "' object is not iterable"))
  }

  /** `key in v` agrees with iteration: it raises exactly where `for x in v`
      raises, and on a list, an object or (for a one-character key) a
      string it holds exactly when iteration visits `key`. */
  lemma InMatchesIterate(key: string, v: Json)
    ensures In(key, v).Raise? <==> Iterate(v).Raise?
    ensures (v.Arr? || v.Obj? || (v.Str? && |key| == 1)) ==>
      (In(key, v) == Ok(true) <==> Str(key) in Iterate(v).value)
  {
    if v.Str? && |key| == 1 {
      Text.ContainsChar(v.s, key[0]);
      assert [key[0]] == key;
      var items := Iterate(v).value;
      if key[0] in v.s {
        var i :| 0 <= i < |v.s| && v.s[i] == key[0];
        assert items[i] == Str(key);
      }
      if Str(key) in items {
        var i :| 0 <= i < |items| && items[i] == Str(key);
        assert v.s[i] == key[0];
      }
    }
  }

  /** On an object, the guard `key in v` holds exactly when the subscript
      `v[key]` it protects succeeds. */
  lemma InGuardsSubscript(key: string, v: Json)
    requires v.Obj?
    ensures In(key, v) == Ok(true) <==> Subscript(v, key).Ok?
    ensures In(key, v) == Ok(false) <==> Subscript(v, key) == Raise(KeyError(key))
  {
  }

  /** Values usable as dictionary keys: everything but lists and objects. */
  predicate Hashable(v: Json) {
    !v.Arr? && !v.Obj?
  }

  /** `[f(x) for x in xs]`: the items are evaluated in order and the first
      exception ends the comprehension. */
  function MapAll<T>(xs: seq<Json>, f: Json -> Outcome<T>): (r: Outcome<seq<T>>)
    ensures r.Ok? <==> forall i | 0 <= i < |xs| :: f(xs[i]).Ok?
    ensures r.Ok? ==> |r.value| == |xs| && forall i | 0 <= i < |xs| :: f(xs[i]) == Ok(r.value[i])
    ensures r.Raise? ==> exists i | 0 <= i < |xs| ::
      f(xs[i]) == Raise(r.error) && forall k | 0 <= k < i :: f(xs[k]).Ok?
    decreases |xs|
  {
    if |xs| == 0 then Ok([])
    else
      match f(xs[0])
      case Raise(e) => Raise(e)
      case Ok(y) =>
        match MapAll(xs[1..], f)
        case Raise(e) =>
          assert forall i | 0 <= i < |xs| - 1 :: xs[1..][i] == xs[i + 1];
          Raise(e)
        case Ok(ys) => Ok([y] + ys)
  }

  /** `[f(x) for x in xs if keep(x)]`: the condition is evaluated first and
      `f` only for the items it keeps. */
  function FilterMap<T>(xs: seq<Json>, keep: Json -> Outcome<bool>, f: Json -> Outcome<T>): (r: Outcome<seq<T>>)
    ensures r.Ok? <==> forall i | 0 <= i < |xs| :: keep(xs[i]).Ok? && (keep(xs[i]).value ==> f(xs[i]).Ok?)
    ensures r.Ok? ==> |r.value| <= |xs|
    decreases |xs|
  {
    if |xs| == 0 then Ok([])
    else
      match keep(xs[0])
      case Raise(e) => Raise(e)
      case Ok(k) =>
        if k then
          match f(xs[0])
          case Raise(e) => Raise(e)
          case Ok(y) =>
            match FilterMap(xs[1..], keep, f)
            case Raise(e) =>
              assert forall i | 0 <= i < |xs| - 1 :: xs[1..][i] == xs[i + 1];
              Raise(e)
            case Ok(ys) => Ok([y] + ys)
        else
          var rest := FilterMap(xs[1..], keep, f);
          assert forall i | 0 <= i < |xs| - 1 :: xs[1..][i] == xs[i + 1];
          rest
  }

  /** When the condition never raises and follows `flags`, the
      comprehension raises or returns exactly what mapping `f` over the
      kept items in order does: `f` runs on the kept items only. */
  lemma {:induction false} FilterMapSelect<T>(xs: seq<Json>, keep: Json -> Outcome<bool>, f: Json -> Outcome<T>,
                                              flags: seq<bool>, want: bool)
    requires |flags| == |xs|
    requires forall i | 0 <= i < |xs| :: keep(xs[i]) == Ok(flags[i] == want)
    ensures FilterMap(xs, keep, f) == MapAll(Seqs.Select(xs, flags, want), f)
    decreases |xs|
  {
    if |xs| > 0 {
      var tail := xs[1..];
      assert forall i | 0 <= i < |tail| :: tail[i] == xs[i + 1];
      FilterMapSelect(tail, keep, f, flags[1..], want);
      var rest := Seqs.Select(tail, flags[1..], want);
      if flags[0] == want {
        var kept := [xs[0]] + rest;
        assert kept[0] == xs[0] && kept[1..] == rest;
      }
    }
  }
}
