/**
 * Decoded JSON values as the JavaScript code sees them after `JSON.parse`. An object is its
 * ordered member list: the order is the one `for…in` enumerates, and keys are distinct because
 * `JSON.parse` keeps one entry per key.
 */
module Json {
  import opened Wrappers

  datatype Value =
    | Null
    | Bool(b: bool)
    | Num(n: real)
    | Str(s: string)
    | Arr(items: seq<Value>)
    | Obj(members: seq<Member>)

  datatype Member = Member(key: string, val: Value)

  /** JavaScript truthiness. */
  predicate Truthy(v: Value) {
    match v
    case Null => false
    case Bool(b) => b
    case Num(n) => n != 0.0
    case Str(s) => s != ""
    case Arr(_) => true
    case Obj(_) => true
  }

  /** `v && typeof v === 'object'`: an array or an object, never `null`. */
  predicate IsObjectLike(v: Value) {
    v.Arr? || v.Obj?
  }

  /**
   * Converting a decoded value to a string (`${v}`, `String(v)`) throws. A parsed object with
   * its own `toString` member has a non-callable one, and the inherited `valueOf` returns the
   * object itself, so no primitive is found; an array converts through `join`, which converts
   * each element. Every other value converts.
   */
  predicate ConversionThrows(v: Value) {
    match v
    case Obj(ms) => HasKey(ms, "toString")
    case Arr(items) => exists i :: 0 <= i < |items| && ConversionThrows(items[i])
    case _ => false
  }

  /** The message of the `TypeError` a failed conversion raises. */
  const ConversionMessage: string := "Cannot convert object to primitive value"

  /**
   * `{"toString":0}` and an array holding it cannot be converted; an object with its own
   * `valueOf` still converts (to `[object Object]`), and so does an array of `null`s.
   */
  lemma ConversionExamples()
    ensures ConversionThrows(Obj([Member("toString", Num(0.0))]))
    ensures ConversionThrows(Arr([Null, Obj([Member("toString", Num(0.0))])]))
    ensures !ConversionThrows(Obj([Member("valueOf", Num(0.0))]))
    ensures !ConversionThrows(Arr([Null, Null]))
  {
    assert Arr([Null, Obj([Member("toString", Num(0.0))])]).items[1] == Obj([Member("toString", Num(0.0))]);
  }

  /** `k in obj` for an object's own members */
  predicate HasKey(ms: seq<Member>, k: string) {
    ms != [] && (ms[0].key == k || HasKey(ms[1..], k))
  }

  /** `obj[k]` on an object's own members: the first member with that key, `None` for undefined. */
  function Get(ms: seq<Member>, k: string): (r: Option<Value>)
    ensures r.Some? <==> HasKey(ms, k)
    ensures r.Some? ==> Member(k, r.value) in ms
  {
    if ms == [] then None
    else if ms[0].key == k then Some(ms[0].val)
    else Get(ms[1..], k)
  }

  /** `v[k]` for any value: only objects carry the keys the core asks for. */
  function Prop(v: Value, k: string): (r: Option<Value>)
    ensures r.Some? ==> v.Obj?
  {
    if v.Obj? then Get(v.members, k) else None
  }

  /** `v[k]` is truthy */
  predicate PropTruthy(v: Value, k: string) {
    var p := Prop(v, k);
    p.Some? && Truthy(p.value)
  }

  /** The value the LAST member with key `k` carries: what a later duplicate in a spread leaves behind. */
  function GetLast(ms: seq<Member>, k: string): (r: Option<Value>)
    ensures r.Some? <==> HasKey(ms, k)
  {
    if ms == [] then None
    else
      var rest := GetLast(ms[1..], k);
      if rest.Some? then rest
      else if ms[0].key == k then Some(ms[0].val)
      else None
  }

  /** `obj[k] = v`: overwrite in place when the key exists, otherwise append. */
  function Set(ms: seq<Member>, k: string, v: Value): (r: seq<Member>)
    ensures Get(r, k) == Some(v)
    ensures |ms| > 0 ==> |r| > 0 && r[0].key == ms[0].key
  {
    if ms == [] then [Member(k, v)]
    else if ms[0].key == k then [Member(k, v)] + ms[1..]
    else [ms[0]] + Set(ms[1..], k, v)
  }

  /** Assigning one key leaves every other key as it was. */
  lemma {:induction false} SetOther(ms: seq<Member>, k: string, v: Value, k': string)
    requires k' != k
    ensures Get(Set(ms, k, v), k') == Get(ms, k')
  {
    if ms != [] && ms[0].key != k {
      SetOther(ms[1..], k, v, k');
    }
  }

  lemma {:induction false} HasKeyIndex(ms: seq<Member>, k: string)
    ensures HasKey(ms, k) <==> exists i :: 0 <= i < |ms| && ms[i].key == k
    decreases |ms|
  {
    if ms != [] {
      HasKeyIndex(ms[1..], k);
      if exists i :: 0 <= i < |ms| && ms[i].key == k {
        var i :| 0 <= i < |ms| && ms[i].key == k;
        if i > 0 {
          assert ms[1..][i - 1].key == k;
        }
      }
    }
  }

  /** Looking past a prefix that lacks the key. */
  lemma {:induction false} GetAppend(a: seq<Member>, b: seq<Member>, k: string)
    requires !HasKey(a, k)
    ensures Get(a + b, k) == Get(b, k)
    decreases |a|
  {
    if a != [] {
      assert (a + b)[1..] == a[1..] + b;
      GetAppend(a[1..], b, k);
    } else {
      assert a + b == b;
    }
  }

  /** The last member with a key sits in the suffix when the suffix has the key. */
  lemma {:induction false} GetLastAppend(a: seq<Member>, b: seq<Member>, k: string)
    ensures GetLast(a + b, k) == if HasKey(b, k) then GetLast(b, k) else GetLast(a, k)
    decreases |a|
  {
    if a != [] {
      assert (a + b)[1..] == a[1..] + b;
      GetLastAppend(a[1..], b, k);
    } else {
      assert a + b == b;
    }
  }

  /** `{...base, ...extra}`: the members of `extra` assigned one by one, in order. */
  function Spread(base: seq<Member>, extra: seq<Member>): (r: seq<Member>)
    ensures |base| > 0 ==> |r| > 0 && r[0].key == base[0].key
    decreases |extra|
  {
    if extra == [] then base
    else Spread(Set(base, extra[0].key, extra[0].val), extra[1..])
  }

  /**
   * Spreading overrides: a key supplied by `extra` reads as extra's last value for it, every
   * other key reads as in `base`.
   */
  lemma {:induction false} SpreadGet(base: seq<Member>, extra: seq<Member>, k: string)
    ensures Get(Spread(base, extra), k) == if HasKey(extra, k) then GetLast(extra, k) else Get(base, k)
    decreases |extra|
  {
    if extra != [] {
      var base' := Set(base, extra[0].key, extra[0].val);
      SpreadGet(base', extra[1..], k);
      if extra[0].key != k {
        SetOther(base, extra[0].key, extra[0].val, k);
      }
    }
  }
}
