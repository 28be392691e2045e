/** The meaning of each call for `StructuredJsonPrintingContext`, which builds a
    `Json::Value` tree in place instead of writing text. The context holds a
    pointer `current` to the node the next value goes into and a stack `path` of
    pointers to the containers being filled; both are modelled as locations in
    the tree. The jsoncpp subscript operators it relies on are modelled by
    `WithMember` and `WithElement`. */
module Tree {
  import opened Base
  import opened JsonValue
  import opened Printing
  import Utf8

  /** The fields of `StructuredJsonPrintingContext`. */
  datatype TreeState = TreeState(output: Json, current: Location, path: seq<Location>)

  /** Each location lies on the way from the root to every later one. */
  predicate Chain(ls: seq<Location>) {
    forall i, j :: 0 <= i <= j < |ls| ==> ls[i] <= ls[j]
  }

  /** Every pointer the context holds points at a node of the tree: `current` exists, and every
      stacked container is on the way to the next one and to `current`. The constructor
      establishes this and every call keeps it (`TreeStepValid`), so no pointer ever dangles. */
  predicate Valid(st: TreeState) {
    Get(st.output, st.current).Some? && Chain(st.path + [st.current])
  }

  /** The containers on the stack exist and lie on the way to `current`. */
  lemma ValidStack(st: TreeState)
    requires Valid(st)
    ensures forall i :: 0 <= i < |st.path| ==> st.path[i] <= st.current && Get(st.output, st.path[i]).Some?
  {
    forall i | 0 <= i < |st.path|
      ensures st.path[i] <= st.current && Get(st.output, st.path[i]).Some?
    {
      var ls := st.path + [st.current];
      assert ls[i] <= ls[|st.path|];
      GetPrefix(st.output, st.current, |st.path[i]|);
      assert st.current[..|st.path[i]|] == st.path[i];
    }
  }

  /** `node[key]` in jsoncpp: a null node first becomes an empty object, a missing key gets a
      null member; on any other kind of node jsoncpp's assertion fails. */
  function WithMember(node: Json, key: Bytes): (r: Option<Json>)
    ensures r.Some? <==> node.Null? || node.Object?
    ensures r.Some? ==> r.value.Object? && key in r.value.members
    ensures r.Some? && node.Object? ==>
      && r.value.members.Keys == node.members.Keys + {key}
      && forall k :: k in node.members ==> r.value.members[k] == node.members[k]
    ensures r.Some? && node.Null? ==> r.value.members == map[key := Null]
  {
    match node
    case Null => Some(Object(map[key := Null]))
    case Object(m) => Some(if key in m then node else Object(m[key := Null]))
    case _ => None
  }

  /** `b[b.size()]` in jsoncpp: a null node first becomes an empty array, and a null element is
      appended at index `size()`; on any other kind of node jsoncpp's assertion fails. */
  function WithElement(node: Json): (r: Option<(Json, nat)>)
    ensures r.Some? <==> node.Null? || node.Array?
    ensures r.Some? ==>
      var (a, index) := r.value;
      && a.Array? && |a.elems| == index + 1 && a.elems[index] == Null
      && a.elems[..index] == (if node.Array? then node.elems else [])
  {
    match node
    case Null => Some((Array([Null]), 0))
    case Array(es) =>
      assert (es + [Null])[..|es|] == es;
      Some((Array(es + [Null]), |es|))
    case _ => None
  }

  /** `*current = v`. */
  function Store(st: TreeState, v: Json): Outcome<TreeState>
    requires Valid(st)
  {
    Outcome(TreeState(Put(st.output, st.current, v), st.current, st.path), None)
  }

  /** `*current = Json::Value(kind); path.push_back(current)`. */
  function Open(st: TreeState, empty: Json): Outcome<TreeState>
    requires Valid(st)
  {
    Outcome(TreeState(Put(st.output, st.current, empty), st.current, st.path + [st.current]), None)
  }

  /** `path.pop_back()`: nothing else, whatever kind the top container is. */
  function Close(st: TreeState): Outcome<TreeState>
  {
    if st.path == [] then Outcome(st, Some(UndefinedBehaviour))
    else Outcome(TreeState(st.output, st.current, st.path[..|st.path| - 1]), None)
  }

  /** The calls that store one value at `current`. */
  predicate IsScalar(c: Call) {
    !(c.StartObject? || c.StartMember? || c.EndObject? || c.StartArray? || c.NewArrayElement? || c.EndArray?)
  }

  /** The value a scalar writer stores: signed integers as `intValue`, unsigned ones as
      `uintValue`, a `Utf8String` as its UTF-8 bytes. */
  function ScalarValue(c: Call): Json
    requires IsScalar(c)
  {
    match c
    case Skip => Null
    case WriteNull => Null
    case WriteBool(b) => Bool(b)
    case WriteInt(i) => Int(i)
    case WriteUnsignedInt(i) => UInt(i)
    case WriteLong(i) => Int(i)
    case WriteUnsignedLong(i) => UInt(i)
    case WriteLongLong(i) => Int(i)
    case WriteUnsignedLongLong(i) => UInt(i)
    case WriteString(s) => String(s)
    case WriteStringUtf8(t) => String(Utf8.EncodeAll(t))
  }

  /** The effect of one call on the tree context. A declaration or a close on an empty stack is
      undefined behaviour in C++ and reported as `UndefinedBehaviour`. */
  function TreeStep(st: TreeState, c: Call): Outcome<TreeState>
    requires Valid(st)
  {
    match c
    case StartObject => Open(st, Object(map[]))
    case StartArray => Open(st, Array([]))
    case StartMember(name) =>
      if st.path == [] then Outcome(st, Some(UndefinedBehaviour))
      else
        ValidStack(st);
        var top := st.path[|st.path| - 1];
        var key := Utf8.EncodeAll(name);
        (match WithMember(Get(st.output, top).value, key)
         case None => Outcome(st, Some(NotAContainer))
         case Some(n) => Outcome(TreeState(Put(st.output, top, n), top + [Key(key)], st.path), None))
    case NewArrayElement =>
      if st.path == [] then Outcome(st, Some(UndefinedBehaviour))
      else
        ValidStack(st);
        var top := st.path[|st.path| - 1];
        (match WithElement(Get(st.output, top).value)
         case None => Outcome(st, Some(NotAContainer))
         case Some((a, index)) => Outcome(TreeState(Put(st.output, top, a), top + [Index(index)], st.path), None))
    case EndObject => Close(st)
    case EndArray => Close(st)
    case _ => Store(st, ScalarValue(c))
  }

  /** Every call keeps every pointer of the context pointing into the tree. */
  lemma TreeStepValid(st: TreeState, c: Call)
    requires Valid(st)
    ensures Valid(TreeStep(st, c).state)
  {
    match c
    case StartMember(name) => if st.path != [] { MemberValid(st, name); }
    case NewArrayElement => if st.path != [] { ElementValid(st); }
    case EndObject => if st.path != [] { CloseChain(st); }
    case EndArray => if st.path != [] { CloseChain(st); }
    case StartObject => OpenValid(st, Object(map[]));
    case StartArray => OpenValid(st, Array([]));
    case _ => StoreValid(st, ScalarValue(c));
  }

  lemma MemberValid(st: TreeState, name: string)
    requires Valid(st) && st.path != []
    ensures Valid(TreeStep(st, StartMember(name)).state)
  {
    ValidStack(st);
    var top := st.path[|st.path| - 1];
    var key := Utf8.EncodeAll(name);
    var r := WithMember(Get(st.output, top).value, key);
    if r.Some? {
      GetPut(st.output, top, r.value, [Key(key)]);
      PutPrefixChain(st, top, TreeState(Put(st.output, top, r.value), top + [Key(key)], st.path));
    }
  }

  lemma ElementValid(st: TreeState)
    requires Valid(st) && st.path != []
    ensures Valid(TreeStep(st, NewArrayElement).state)
  {
    ValidStack(st);
    var top := st.path[|st.path| - 1];
    var r := WithElement(Get(st.output, top).value);
    if r.Some? {
      var (a, index) := r.value;
      GetPut(st.output, top, a, [Index(index)]);
      PutPrefixChain(st, top, TreeState(Put(st.output, top, a), top + [Index(index)], st.path));
    }
  }

  lemma OpenValid(st: TreeState, empty: Json)
    requires Valid(st)
    ensures Valid(Open(st, empty).state)
  {
    GetPut(st.output, st.current, empty, []);
    assert st.current + [] == st.current;
    OpenChain(st);
  }

  lemma StoreValid(st: TreeState, v: Json)
    requires Valid(st)
    ensures Valid(Store(st, v).state)
  {
    GetPut(st.output, st.current, v, []);
    assert st.current + [] == st.current;
  }

  lemma PutPrefixChain(st: TreeState, top: Location, next: TreeState)
    requires Valid(st) && st.path != [] && top == st.path[|st.path| - 1]
    requires next.path == st.path && |next.current| == |top| + 1 && next.current[..|top|] == top
    ensures Chain(next.path + [next.current])
  {
    var ls, ls' := st.path + [st.current], next.path + [next.current];
    forall i, j | 0 <= i <= j < |ls'|
      ensures ls'[i] <= ls'[j]
    {
      if j < |st.path| {
        assert ls'[i] == ls[i] && ls'[j] == ls[j];
      } else if i < |st.path| {
        assert ls[i] <= ls[|st.path| - 1];
        assert ls'[j] == next.current;
      }
    }
  }

  lemma OpenChain(st: TreeState)
    requires Valid(st)
    ensures Chain(st.path + [st.current] + [st.current])
  {
    var ls := st.path + [st.current];
    var ls' := ls + [st.current];
    forall i, j | 0 <= i <= j < |ls'|
      ensures ls'[i] <= ls'[j]
    {
      if i < |ls| && j == |ls| {
        assert ls[i] <= ls[|ls| - 1];
      } else if j < |ls| {
        assert ls'[i] == ls[i] && ls'[j] == ls[j];
      }
    }
  }

  lemma CloseChain(st: TreeState)
    requires Valid(st) && st.path != []
    ensures Chain(st.path[..|st.path| - 1] + [st.current])
  {
    var ls := st.path + [st.current];
    var ls' := st.path[..|st.path| - 1] + [st.current];
    forall i, j | 0 <= i <= j < |ls'|
      ensures ls'[i] <= ls'[j]
    {
      if i < j && j == |ls'| - 1 {
        assert ls'[i] == ls[i] && ls'[j] == ls[|ls| - 1];
      } else if j < |ls'| - 1 {
        assert ls'[i] == ls[i] && ls'[j] == ls[j];
      }
    }
  }

  /** Opening a container makes the node at `current` an empty object or array, pushes that
      node and leaves `current` on it; every node neither inside it nor above it is untouched. */
  lemma TreeOpen(st: TreeState, isObject: bool, other: Location)
    requires Valid(st)
    requires !(st.current <= other) && !(other <= st.current)
    ensures var r := TreeStep(st, if isObject then StartObject else StartArray);
      && r.error == None
      && Get(r.state.output, st.current) == Some(if isObject then Object(map[]) else Array([]))
      && r.state.current == st.current && r.state.path == st.path + [st.current]
      && Get(r.state.output, other) == Get(st.output, other)
  {
    GetPut(st.output, st.current, if isObject then Object(map[]) else Array([]), []);
    assert st.current + [] == st.current;
    GetPutElsewhere(st.output, st.current, if isObject then Object(map[]) else Array([]), other);
  }

  /** Closing pops one container and does nothing else: it checks no kind (an array may be closed
      by `endObject`) and does not move `current`, which keeps pointing into the closed container. */
  lemma TreeClose(st: TreeState)
    requires Valid(st) && st.path != []
    ensures TreeStep(st, EndObject) == TreeStep(st, EndArray)
      == Outcome(TreeState(st.output, st.current, st.path[..|st.path| - 1]), None)
  {
  }

  /** Declaring a member: it succeeds exactly when the top container is null or an object. Then
      the top becomes an object that keeps all its members, `current` points at the member with that
      name, and that member is the existing one when the name repeats (its value is kept until
      overwritten) or a new null one; the top's names are its old ones (none if it was null) plus
      this one, and every node neither inside the top nor above it is untouched. Otherwise
      jsoncpp's assertion fails and nothing changes. */
  lemma TreeMember(st: TreeState, name: string, other: Location)
    requires Valid(st) && st.path != []
    ensures
      var top := st.path[|st.path| - 1];
      var node := Get(st.output, top);
      var key := Utf8.EncodeAll(name);
      var r := TreeStep(st, StartMember(name));
      && node.Some?
      && (r.error == None <==> node.value.Null? || node.value.Object?)
      && (r.error != None ==> r == Outcome(st, Some(NotAContainer)))
      && (r.error == None ==>
            && r.state.current == top + [Key(key)] && r.state.path == st.path
            && Get(r.state.output, r.state.current) ==
                 Some(if node.value.Object? && key in node.value.members then node.value.members[key] else Null)
            && Get(r.state.output, top).Some? && Get(r.state.output, top).value.Object?
            && Get(r.state.output, top).value.members.Keys
                 == (if node.value.Object? then node.value.members.Keys else {}) + {key}
            && (node.value.Object? ==>
                  forall k :: k in node.value.members ==> Get(r.state.output, top + [Key(k)]) == Some(node.value.members[k]))
            && (!(top <= other) && !(other <= top) ==> Get(r.state.output, other) == Get(st.output, other)))
  {
    ValidStack(st);
    var top := st.path[|st.path| - 1];
    var node := Get(st.output, top).value;
    var key := Utf8.EncodeAll(name);
    var n := WithMember(node, key);
    if n.Some? {
      GetPut(st.output, top, n.value, [Key(key)]);
      forall k | node.Object? && k in node.members
        ensures Get(Put(st.output, top, n.value), top + [Key(k)]) == Some(node.members[k])
      {
        GetPut(st.output, top, n.value, [Key(k)]);
      }
      GetPut(st.output, top, n.value, []);
      assert top + [] == top;
      if !(top <= other) && !(other <= top) {
        GetPutElsewhere(st.output, top, n.value, other);
      }
    }
  }

  /** Declaring an array element: it succeeds exactly when the top container is null or an array.
      Then the top becomes an array with one more element, a null at index `size()`, and `current`
      points at it; every node neither inside the top nor above it is untouched. Otherwise
      jsoncpp's assertion fails and nothing changes. */
  lemma TreeArrayElement(st: TreeState, other: Location)
    requires Valid(st) && st.path != []
    ensures
      var top := st.path[|st.path| - 1];
      var node := Get(st.output, top);
      var r := TreeStep(st, NewArrayElement);
      && node.Some?
      && (r.error == None <==> node.value.Null? || node.value.Array?)
      && (r.error != None ==> r == Outcome(st, Some(NotAContainer)))
      && (r.error == None ==>
            var before := if node.value.Array? then node.value.elems else [];
            && r.state.current == top + [Index(|before|)] && r.state.path == st.path
            && Get(r.state.output, top) == Some(Array(before + [Null]))
            && (!(top <= other) && !(other <= top) ==> Get(r.state.output, other) == Get(st.output, other)))
  {
    ValidStack(st);
    var top := st.path[|st.path| - 1];
    var node := Get(st.output, top).value;
    var a := WithElement(node);
    if a.Some? {
      GetPut(st.output, top, a.value.0, []);
      assert top + [] == top;
      var before := if node.Array? then node.elems else [];
      assert a.value.0.elems == a.value.0.elems[..a.value.1] + [Null];
      if !(top <= other) && !(other <= top) {
        GetPutElsewhere(st.output, top, a.value.0, other);
      }
    }
  }

  /** A scalar writer overwrites the node at `current` (whatever it held, even a container on the
      stack) and changes nothing else: no other node, not `current`, not the stack. */
  lemma TreeScalarWriters(st: TreeState, c: Call, other: Location)
    requires Valid(st) && IsScalar(c)
    requires !(st.current <= other) && !(other <= st.current)
    ensures var r := TreeStep(st, c);
      && r.error == None && r.state.current == st.current && r.state.path == st.path
      && Get(r.state.output, st.current) == Some(ScalarValue(c))
      && Get(r.state.output, other) == Get(st.output, other)
    ensures (c.Skip? || c.WriteNull?) ==> ScalarValue(c) == Null
    ensures c.WriteStringUtf8? ==> ScalarValue(c) == String(Utf8.EncodeAll(c.text))
    ensures c.WriteString? ==> ScalarValue(c) == String(c.bytes)
  {
    GetPut(st.output, st.current, ScalarValue(c), []);
    assert st.current + [] == st.current;
    GetPutElsewhere(st.output, st.current, ScalarValue(c), other);
  }

  /** A whole session on the tree context: the calls in order, stopping at the first exception. */
  function TreeRun(st: TreeState, calls: seq<Call>): (r: Outcome<TreeState>)
    requires Valid(st)
    ensures Valid(r.state)
    decreases |calls|
  {
    if calls == [] then Outcome(st, None)
    else
      TreeStepValid(st, calls[0]);
      var r := TreeStep(st, calls[0]);
      if r.error.Some? then r else TreeRun(r.state, calls[1..])
  }
}
