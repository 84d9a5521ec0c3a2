/**
 * A parsed JSON document as JavaScript holds it: primitives, and references
 * to array and object nodes.  A node's identity is its index in the heap, so
 * shared references and cycles can be written down, and an identity-keyed
 * `Set` becomes a set of node indices.
 */
module Json {
  import Assoc

  datatype Value =
    | Undefined
    | Null
    | Bool(b: bool)
    | Num(n: real)
    | Str(s: string)
    | Ref(id: nat)

  /** An array's elements, or an object's own properties in key order. */
  datatype Node =
    | Arr(elems: seq<Value>)
    | Obj(fields: seq<(string, Value)>)

  type Heap = seq<Node>

  /** The values `??` skips. */
  predicate Nullish(v: Value) {
    v.Undefined? || v.Null?
  }

  /** The values `!v` rejects: `undefined`, `null`, `false`, `0`, `""`. */
  predicate Truthy(v: Value) {
    match v
    case Undefined => false
    case Null => false
    case Bool(b) => b
    case Num(n) => n != 0.0
    case Str(s) => s != ""
    case Ref(_) => true
  }

  /** `typeof x === "object" && x !== null`; arrays are objects too. */
  predicate IsObject(h: Heap, v: Value) {
    v.Ref? && v.id < |h|
  }

  /** The value is a reference to an array node (`Array.isArray`). */
  predicate IsArray(h: Heap, v: Value) {
    IsObject(h, v) && h[v.id].Arr?
  }

  /** The values of an object, in key order (`Object.values`). */
  function Values(fields: seq<(string, Value)>): (vs: seq<Value>)
    ensures |vs| == |fields|
    ensures forall i | 0 <= i < |fields| :: vs[i] == fields[i].1
  {
    seq(|fields|, i requires 0 <= i < |fields| => fields[i].1)
  }

  /** The values a node holds directly. */
  function Children(n: Node): seq<Value> {
    match n
    case Arr(elems) => elems
    case Obj(fields) => Values(fields)
  }

  /** What `JSON.parse` produces: every reference resolves and no object
      repeats a key. */
  ghost predicate WellFormed(h: Heap) {
    && (forall i, j | 0 <= i < |h| && 0 <= j < |Children(h[i])| ::
          Children(h[i])[j].Ref? ==> Children(h[i])[j].id < |h|)
    && (forall i | 0 <= i < |h| && h[i].Obj? :: Assoc.DistinctKeys(h[i].fields))
  }

  /** Property access `x[key]`: the own property of an object, `undefined`
      when it is missing, and `undefined` on arrays and primitives for the
      keys this model reads. */
  function Get(h: Heap, x: Value, key: string): Value {
    if IsObject(h, x) && h[x.id].Obj? then Lookup(h[x.id].fields, key) else Undefined
  }

  /** The value of the property `key`, `undefined` when there is none. */
  function Lookup(fields: seq<(string, Value)>, key: string): Value {
    if fields == [] then Undefined
    else if fields[0].0 == key then fields[0].1
    else Lookup(fields[1..], key)
  }

  /** `chain[0] ?? chain[1] ?? ... ?? chain[n-1]`: the first value that is
      not nullish, or the last one when all are. */
  function Coalesce(chain: seq<Value>): (r: Value)
    requires |chain| > 0
    ensures forall i | 0 <= i < |chain| && !Nullish(chain[i]) &&
                       (forall j | 0 <= j < i :: Nullish(chain[j])) :: r == chain[i]
    ensures (forall i | 0 <= i < |chain| :: Nullish(chain[i])) ==> r == chain[|chain| - 1]
  {
    if |chain| == 1 || !Nullish(chain[0]) then chain[0]
    else
      var r := Coalesce(chain[1..]);
      assert forall i | 1 <= i < |chain| :: chain[1..][i - 1] == chain[i];
      r
  }

  /** The first non-nullish value of `chain` is a string. */
  ghost predicate FirstPresentIsString(chain: seq<Value>) {
    exists i | 0 <= i < |chain| :: chain[i].Str? && forall j | 0 <= j < i :: Nullish(chain[j])
  }

  /** `typeof (a ?? b ?? ...) === "string"` holds exactly when the first
      present value of the chain is a string. */
  lemma {:induction false} CoalesceIsString(chain: seq<Value>)
    requires |chain| > 0
    ensures Coalesce(chain).Str? <==> FirstPresentIsString(chain)
  {
    if |chain| == 1 || !Nullish(chain[0]) {
      if FirstPresentIsString(chain) {
        var i :| 0 <= i < |chain| && chain[i].Str? && forall j | 0 <= j < i :: Nullish(chain[j]);
        assert i == 0;
      }
    } else {
      CoalesceIsString(chain[1..]);
      if FirstPresentIsString(chain[1..]) {
        var i :| 0 <= i < |chain[1..]| && chain[1..][i].Str? &&
                 forall j | 0 <= j < i :: Nullish(chain[1..][j]);
        assert chain[i + 1].Str?;
        assert forall j | 0 <= j < i + 1 :: Nullish(chain[j]) by {
          forall j | 0 < j < i + 1 ensures Nullish(chain[j]) {
            assert chain[j] == chain[1..][j - 1];
          }
        }
      }
      if FirstPresentIsString(chain) {
        var i :| 0 <= i < |chain| && chain[i].Str? && forall j | 0 <= j < i :: Nullish(chain[j]);
        assert i > 0;
        assert chain[1..][i - 1].Str?;
        assert forall j | 0 <= j < i - 1 :: Nullish(chain[1..][j]) by {
          forall j | 0 <= j < i - 1 ensures Nullish(chain[1..][j]) {
            assert chain[1..][j] == chain[j + 1];
          }
        }
      }
    }
  }
}
