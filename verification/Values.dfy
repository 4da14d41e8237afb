/** JSON values as the codec sees them, and the equality that ignores member order. */
module Values {
  import opened Base
  import opened Floats

  /** Numbers are binary64 bit patterns: 1 and 1.0 are one value, 0.0 and -0.0 are two.
      An object is a Python dict: a map together with its insertion order. */
  datatype Value =
    | Null
    | Bool(b: bool)
    | Num(bits: F64)
    | Str(text: string)
    | Arr(items: seq<Value>)
    | Obj(keys: seq<string>, vals: map<string, Value>)

  predicate NoDuplicates<T(==)>(s: seq<T>) {
    forall i, j :: 0 <= i < j < |s| ==> s[i] != s[j]
  }

  /** The order lists exactly the keys of the map, once each. */
  ghost predicate Ordered(keys: seq<string>, vals: map<string, Value>) {
    NoDuplicates(keys) && (forall k :: k in keys <==> k in vals)
  }

  /** A JSON value all of whose numbers are finite. */
  ghost predicate WellFormed(v: Value) {
    match v
    case Num(bits) => Finite(bits)
    case Arr(items) => forall i :: 0 <= i < |items| ==> WellFormed(items[i])
    case Obj(keys, vals) => Ordered(keys, vals) && forall k :: k in vals ==> WellFormed(vals[k])
    case _ => true
  }

  /** Deep equality: numbers by bits, objects whatever their member order. */
  predicate Same(a: Value, b: Value) {
    match (a, b)
    case (Arr(x), Arr(y)) => |x| == |y| && forall i :: 0 <= i < |x| ==> Same(x[i], y[i])
    case (Obj(_, x), Obj(_, y)) => x.Keys == y.Keys && forall k :: k in x ==> Same(x[k], y[k])
    case (Arr(_), _) => false
    case (Obj(_, _), _) => false
    case _ => a == b
  }

  predicate SameOption(a: Option<Value>, b: Option<Value>) {
    match (a, b)
    case (None, None) => true
    case (Some(x), Some(y)) => Same(x, y)
    case _ => false
  }

  ghost predicate WellFormedOption(v: Option<Value>) {
    v.Some? ==> WellFormed(v.value)
  }

  lemma {:induction false} SameReflexive(v: Value)
    ensures Same(v, v)
  {
    match v
    case Arr(items) =>
      forall i | 0 <= i < |items| ensures Same(items[i], items[i]) {
        SameReflexive(items[i]);
      }
    case Obj(_, vals) =>
      forall k | k in vals ensures Same(vals[k], vals[k]) {
        SameReflexive(vals[k]);
      }
    case _ =>
  }

  lemma {:induction false} SameSymmetric(a: Value, b: Value)
    ensures Same(a, b) ==> Same(b, a)
  {
    if Same(a, b) {
      match (a, b)
      case (Arr(x), Arr(y)) =>
        forall i | 0 <= i < |x| ensures Same(y[i], x[i]) {
          SameSymmetric(x[i], y[i]);
        }
      case (Obj(_, x), Obj(_, y)) =>
        forall k | k in y ensures Same(y[k], x[k]) {
          assert k in x;
          SameSymmetric(x[k], y[k]);
        }
      case _ =>
    }
  }

  lemma {:induction false} SameTransitive(a: Value, b: Value, c: Value)
    requires Same(a, b) && Same(b, c)
    ensures Same(a, c)
  {
    match (a, b)
    case (Arr(x), Arr(y)) =>
      forall i | 0 <= i < |x| ensures Same(x[i], c.items[i]) {
        SameTransitive(x[i], y[i], c.items[i]);
      }
    case (Obj(_, x), Obj(_, y)) =>
      forall k | k in x ensures Same(x[k], c.vals[k]) {
        assert k in y;
        SameTransitive(x[k], y[k], c.vals[k]);
      }
    case _ =>
  }

  // ----- lookups shared by the writers and the readers -----

  function NumberOf(v: Option<Value>): Option<F64> {
    if v.Some? && v.value.Num? then Some(v.value.bits) else None
  }

  function Member(v: Option<Value>, key: string): Option<Value> {
    if v.Some? && v.value.Obj? && key in v.value.vals then Some(v.value.vals[key]) else None
  }

  function Element(v: Option<Value>, index: nat): Option<Value> {
    if v.Some? && v.value.Arr? && index < |v.value.items| then Some(v.value.items[index]) else None
  }

  /** An exactly representable binary32 number. */
  predicate Exact(v: Value) {
    v.Num? && ExactF32(v.bits)
  }

  predicate ExactArray(v: Value) {
    v.Arr? && forall i :: 0 <= i < |v.items| ==> Exact(v.items[i])
  }

  lemma SameArrays(a: Value, b: Value)
    requires Same(a, b) && ExactArray(a)
    ensures a == b
  {
    assert a.items == b.items by {
      forall i | 0 <= i < |a.items| ensures a.items[i] == b.items[i] {
        assert Exact(a.items[i]);
        assert Same(a.items[i], b.items[i]);
      }
    }
  }
}
