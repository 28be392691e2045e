/** The `Json::Value` tree that `StructuredJsonPrintingContext` builds, and the
    locations inside it that stand for the context's `Json::Value *` pointers:
    a pointer to a node is the path of member keys and array indices that leads
    to it from the root. */
module JsonValue {
  import opened Base

  /** The kinds of `Json::Value` the printing context can produce. Signed integers become
      `intValue` and unsigned ones `uintValue`; strings are kept as their bytes. */
  datatype Json =
    | Null
    | Bool(b: bool)
    | Int(i: int)
    | UInt(n: nat)
    | String(s: Bytes)
    | Array(elems: seq<Json>)
    | Object(members: map<Bytes, Json>)

  /** One step down the tree: an object member by key, or an array element by index. */
  datatype Step = Key(k: Bytes) | Index(i: nat)

  type Location = seq<Step>

  /** The node at `loc`, if there is one. */
  function Get(j: Json, loc: Location): Option<Json>
  {
    if loc == [] then Some(j)
    else match j
      case Object(m) =>
        if loc[0].Key? && loc[0].k in m then Get(m[loc[0].k], loc[1..]) else None
      case Array(es) =>
        if loc[0].Index? && loc[0].i < |es| then Get(es[loc[0].i], loc[1..]) else None
      case _ => None
  }

  /** The tree with the node at `loc` replaced by `v`: what `*p = v` does through a pointer to it. */
  function Put(j: Json, loc: Location, v: Json): Json
    requires Get(j, loc).Some?
  {
    if loc == [] then v
    else match j
      case Object(m) => Object(m[loc[0].k := Put(m[loc[0].k], loc[1..], v)])
      case Array(es) => Array(es[loc[0].i := Put(es[loc[0].i], loc[1..], v)])
  }

  /** Every ancestor of a node exists. */
  lemma {:induction false} GetPrefix(j: Json, loc: Location, n: nat)
    requires Get(j, loc).Some? && n <= |loc|
    ensures Get(j, loc[..n]).Some?
  {
    if n > 0 {
      assert loc[..n][1..] == loc[1..][..n - 1];
      match j
      case Object(m) => GetPrefix(m[loc[0].k], loc[1..], n - 1);
      case Array(es) => GetPrefix(es[loc[0].i], loc[1..], n - 1);
    }
  }

  /** After the node at `loc` is replaced, what lies at and below `loc` is the new node's contents. */
  lemma {:induction false} GetPut(j: Json, loc: Location, v: Json, rest: Location)
    requires Get(j, loc).Some?
    ensures Get(Put(j, loc, v), loc + rest) == Get(v, rest)
  {
    if loc != [] {
      assert (loc + rest)[0] == loc[0];
      assert (loc + rest)[1..] == loc[1..] + rest;
      match j
      case Object(m) => GetPut(m[loc[0].k], loc[1..], v, rest);
      case Array(es) => GetPut(es[loc[0].i], loc[1..], v, rest);
    } else {
      assert loc + rest == rest;
    }
  }

  /** Replacing a node leaves every node that is neither inside it nor one of its ancestors as it was. */
  lemma {:induction false} GetPutElsewhere(j: Json, loc: Location, v: Json, other: Location)
    requires Get(j, loc).Some?
    requires !(loc <= other) && !(other <= loc)
    ensures Get(Put(j, loc, v), other) == Get(j, other)
  {
    match j
    case Object(m) =>
      if other[0] == loc[0] {
        GetPutElsewhere(m[loc[0].k], loc[1..], v, other[1..]);
      }
    case Array(es) =>
      if other[0] == loc[0] {
        GetPutElsewhere(es[loc[0].i], loc[1..], v, other[1..]);
      }
  }

  /** The node just put at `loc` is there. */
  lemma {:induction false} GetPutSame(j: Json, loc: Location, v: Json)
    requires Get(j, loc).Some?
    ensures Get(Put(j, loc, v), loc) == Some(v)
  {
    if loc != [] {
      match j
      case Object(m) => GetPutSame(m[loc[0].k], loc[1..], v);
      case Array(es) => GetPutSame(es[loc[0].i], loc[1..], v);
    }
  }

  /** Replacing a node keeps all its ancestors in place. */
  lemma {:induction false} PutKeepsAncestors(j: Json, loc: Location, v: Json, n: nat)
    requires Get(j, loc).Some? && n <= |loc|
    ensures Get(Put(j, loc, v), loc[..n]).Some?
  {
    GetPutSame(j, loc, v);
    GetPrefix(Put(j, loc, v), loc, n);
  }

  /** Replacing the same node twice keeps only the second value. */
  lemma {:induction false} PutPut(j: Json, loc: Location, v: Json, w: Json)
    requires Get(j, loc).Some?
    ensures Get(Put(j, loc, v), loc).Some?
    ensures Put(Put(j, loc, v), loc, w) == Put(j, loc, w)
  {
    GetPutSame(j, loc, v);
    if loc != [] {
      var step, tail := loc[0], loc[1..];
      match j
      case Object(m) =>
        PutPut(m[step.k], tail, v, w);
        var m1 := m[step.k := Put(m[step.k], tail, v)];
        assert m1[step.k := Put(m1[step.k], tail, w)] == m[step.k := Put(m[step.k], tail, w)];
      case Array(es) =>
        PutPut(es[step.i], tail, v, w);
        var es1 := es[step.i := Put(es[step.i], tail, v)];
        assert es1[step.i := Put(es1[step.i], tail, w)] == es[step.i := Put(es[step.i], tail, w)];
    }
  }

  /** Replacing a node inside a node just replaced is replacing the outer node by the edited value. */
  lemma {:induction false} PutCompose(j: Json, loc: Location, v: Json, rest: Location, x: Json)
    requires Get(j, loc).Some? && Get(v, rest).Some?
    ensures Get(Put(j, loc, v), loc + rest).Some?
    ensures Put(Put(j, loc, v), loc + rest, x) == Put(j, loc, Put(v, rest, x))
    decreases loc, 1
  {
    GetPut(j, loc, v, rest);
    if loc == [] {
      assert loc + rest == rest;
    } else {
      var step, tail := loc[0], loc[1..];
      assert (loc + rest)[0] == step;
      assert (loc + rest)[1..] == tail + rest;
      match j
      case Object(m) =>
        PutComposeObject(m, loc, v, rest, x);
      case Array(es) =>
        PutComposeArray(es, loc, v, rest, x);
    }
  }

  lemma {:induction false} PutComposeObject(m: map<Bytes, Json>, loc: Location, v: Json, rest: Location, x: Json)
    requires loc != [] && Get(Object(m), loc).Some? && Get(v, rest).Some?
    requires Get(Put(Object(m), loc, v), loc + rest).Some?
    requires (loc + rest)[0] == loc[0] && (loc + rest)[1..] == loc[1..] + rest
    ensures Put(Put(Object(m), loc, v), loc + rest, x) == Put(Object(m), loc, Put(v, rest, x))
    decreases loc, 0
  {
    var key, tail := loc[0].k, loc[1..];
    PutCompose(m[key], tail, v, rest, x);
    var m1 := m[key := Put(m[key], tail, v)];
    assert m1[key := Put(m1[key], tail + rest, x)] == m[key := Put(m[key], tail, Put(v, rest, x))];
  }

  lemma {:induction false} PutComposeArray(es: seq<Json>, loc: Location, v: Json, rest: Location, x: Json)
    requires loc != [] && Get(Array(es), loc).Some? && Get(v, rest).Some?
    requires Get(Put(Array(es), loc, v), loc + rest).Some?
    requires (loc + rest)[0] == loc[0] && (loc + rest)[1..] == loc[1..] + rest
    ensures Put(Put(Array(es), loc, v), loc + rest, x) == Put(Array(es), loc, Put(v, rest, x))
    decreases loc, 0
  {
    var i, tail := loc[0].i, loc[1..];
    PutCompose(es[i], tail, v, rest, x);
    var es1 := es[i := Put(es[i], tail, v)];
    assert es1[i := Put(es1[i], tail + rest, x)] == es[i := Put(es[i], tail, Put(v, rest, x))];
  }
}
