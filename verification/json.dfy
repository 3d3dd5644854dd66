/** The values `JSON.parse` produces (RFC 8259), together with the pieces of
    ECMAScript semantics the analysis page applies to them: truthiness,
    `x || d`, property reads, optional chaining and object spread. */
module Json {
  import opened Options
  import opened JsText

  /** A parsed JSON value. Numbers are exact reals: rounding to doubles,
      including the overflow of a literal such as `1e400` to Infinity, is not
      modelled. Object member order is not modelled either. */
  datatype Json =
    | Null
    | Bool(b: bool)
    | Num(n: real)
    | Str(s: string)
    | Arr(items: seq<Json>)
    | Obj(fields: map<string, Json>)

  /** ToBoolean (section 7.1.2 of ECMA-262) on a JSON value. */
  predicate Truthy(v: Json)
  {
    match v
    case Null => false
    case Bool(b) => b
    case Num(x) => x != 0.0
    case Str(s) => |s| > 0
    case Arr(_) => true
    case Obj(_) => true
  }

  /** ToBoolean of a property read, where `None` is `undefined`. */
  predicate TruthyRead(x: Option<Json>) {
    x.Some? && Truthy(x.value)
  }

  /** The logical OR `x || d` (section 13.13 of ECMA-262): the left operand
      when it is truthy, the right one otherwise. */
  function Or(x: Option<Json>, d: Json): (r: Json)
    ensures TruthyRead(x) ==> r == x.value
    ensures !TruthyRead(x) ==> r == d
  {
    if TruthyRead(x) then x.value else d
  }

  /** The falsy JSON values are exactly `null`, `false`, `0`, and the empty
      string; every array and object is truthy, even an empty one. */
  lemma FalsyValues(v: Json)
    ensures !Truthy(v) <==> v == Null || v == Bool(false) || v == Num(0.0) || v == Str([])
  {
  }

  /** `x || d` is truthy exactly when one of its operands is. */
  lemma OrTruthy(x: Option<Json>, d: Json)
    ensures Truthy(Or(x, d)) <==> TruthyRead(x) || Truthy(d)
  {
  }

  /** The index keys "0", "1", ..., of a sequence of length `n`. */
  ghost function IndexKeys(n: nat): set<string> {
    set i | 0 <= i < n :: NatToString(i)
  }

  /** The properties "0", "1", ... of an array (or of a string's characters). */
  function IndexProps(xs: seq<Json>): (m: map<string, Json>)
    ensures m.Keys == IndexKeys(|xs|)
    ensures forall k :: k in m ==> AllDigits(k)
    ensures forall i :: 0 <= i < |xs| ==> NatToString(i) in m && m[NatToString(i)] == xs[i]
  {
    assert forall i, j :: 0 <= i < |xs| && 0 <= j < |xs| && NatToString(i) == NatToString(j) ==> i == j by {
      forall i, j | 0 <= i < |xs| && 0 <= j < |xs| && NatToString(i) == NatToString(j) ensures i == j {
        NatToStringInjective(i, j);
      }
    }
    map i | 0 <= i < |xs| :: NatToString(i) := xs[i]
  }

  /** The characters of a string, each as a one-character string value. */
  function CharValues(s: string): (vs: seq<Json>)
    ensures |vs| == |s|
    ensures forall i :: 0 <= i < |s| ==> vs[i] == Str([s[i]])
  {
    seq(|s|, i requires 0 <= i < |s| => Str([s[i]]))
  }

  /** The own enumerable properties of a value, which is what object spread
      `{...v}` copies (CopyDataProperties in ECMA-262): an object's members,
      an array's elements and a string's characters under their index keys,
      and nothing for `null`, booleans and numbers. */
  function OwnProps(v: Json): map<string, Json> {
    match v
    case Obj(m) => m
    case Arr(xs) => IndexProps(xs)
    case Str(s) => IndexProps(CharValues(s))
    case _ => map[]
  }

  /** What `{...v}` copies, value kind by value kind: an object's members;
      an array's elements under exactly the keys "0" to "n-1"; a string's
      characters, each as a one-character string, under the same keys; and
      nothing from `null`, a boolean or a number. */
  lemma SpreadProps(v: Json)
    ensures v.Obj? ==> OwnProps(v) == v.fields
    ensures v.Arr? ==> OwnProps(v).Keys == IndexKeys(|v.items|)
    ensures v.Arr? ==> forall i :: 0 <= i < |v.items| ==> OwnProps(v)[NatToString(i)] == v.items[i]
    ensures v.Str? ==> OwnProps(v).Keys == IndexKeys(|v.s|)
    ensures v.Str? ==> forall i :: 0 <= i < |v.s| ==> OwnProps(v)[NatToString(i)] == Str([v.s[i]])
    ensures v.Null? || v.Bool? || v.Num? ==> OwnProps(v) == map[]
  {
  }

  /** A key that contains a non-digit is never an own property of anything
      but an object: spreading an array or a string yields index keys only. */
  lemma NonDigitKeyNotOwned(v: Json, k: string, p: nat)
    requires !v.Obj? && p < |k| && !IsDigit(k[p])
    ensures k !in OwnProps(v)
  {
  }

  /** The property read `v.key` (or `v[key]`) on a value that is not `null`;
      `None` is `undefined`. Only own properties are modelled: none of the
      keys the analysis page reads is inherited by, or is the `length` of,
      a JSON value. Reading a property of `null` throws, which callers model. */
  function Get(v: Json, key: string): (r: Option<Json>)
    requires !v.Null?
    ensures r.Some? <==> key in OwnProps(v)
    ensures r.Some? ==> r.value == OwnProps(v)[key]
  {
    var own := OwnProps(v);
    if key in own then Some(own[key]) else None
  }

  /** The optional-chaining read `x?.key` (section 13.3.9 of ECMA-262):
      `undefined` when `x` is `null` or `undefined`, otherwise `x.key`. */
  function OptGet(x: Option<Json>, key: string): (r: Option<Json>)
    ensures x.None? || x == Some(Null) ==> r.None?
    ensures x.Some? && x.value.Obj? ==> r == (if key in x.value.fields then Some(x.value.fields[key]) else None)
    ensures x.Some? && !x.value.Null? ==> r == Get(x.value, key)
  {
    match x
    case None => None
    case Some(Null) => None
    case Some(v) => Get(v, key)
  }

  /** The first element of a non-empty array is read back with key "0". */
  lemma GetFirstElement(xs: seq<Json>)
    requires |xs| > 0
    ensures Get(Arr(xs), "0") == Some(xs[0])
  {
    assert NatToString(0) == "0";
  }
}
