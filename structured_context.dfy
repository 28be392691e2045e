/** `StructuredJsonPrintingContext`: builds a `Json::Value` tree in place. */
module StructuredContext {
  import opened Base
  import opened JsonValue
  import opened Printing
  import opened Tree
  import Utf8

  class StructuredJsonPrintingContext {
    /** The tree being built; the caller reads it when done. */
    var output: Json
    /** Where the next value goes (`Json::Value * current`). */
    var current: Location
    /** The containers being filled (`std::vector<Json::Value *> path`). */
    var path: seq<Location>

    /** The context starts with a null tree and `current` at its root. */
    constructor ()
      ensures output == Null && current == [] && path == []
      ensures Valid()
    {
      output := Null;
      current := [];
      path := [];
    }

    function State(): TreeState
      reads this
    {
      TreeState(output, current, path)
    }

    predicate Valid()
      reads this
    {
      Tree.Valid(State())
    }

    method StartObject()
      requires Valid()
      modifies this
      ensures Valid()
      ensures Outcome(State(), None) == TreeStep(old(State()), Call.StartObject)
    {
      TreeStepValid(State(), Call.StartObject);
      output := Put(output, current, Object(map[]));
      path := path + [current];
    }

    /** `current = &(*path.back())[memberName]`. */
    method StartMember(memberName: string) returns (error: Option<Error>)
      requires Valid() && path != []
      modifies this
      ensures Valid()
      ensures Outcome(State(), error) == TreeStep(old(State()), Call.StartMember(memberName))
    {
      TreeStepValid(State(), Call.StartMember(memberName));
      ValidStack(State());
      var top := path[|path| - 1];
      var key := Utf8.EncodeAll(memberName);
      var node := WithMember(Get(output, top).value, key);
      if node.None? {
        return Some(NotAContainer);
      }
      output := Put(output, top, node.value);
      current := top + [Key(key)];
      return None;
    }

    method EndObject() returns (error: Option<Error>)
      requires Valid() && path != []
      modifies this
      ensures Valid()
      ensures Outcome(State(), error) == TreeStep(old(State()), Call.EndObject)
    {
      TreeStepValid(State(), Call.EndObject);
      path := path[..|path| - 1];
      return None;
    }

    method StartArray()
      requires Valid()
      modifies this
      ensures Valid()
      ensures Outcome(State(), None) == TreeStep(old(State()), Call.StartArray)
    {
      TreeStepValid(State(), Call.StartArray);
      output := Put(output, current, Array([]));
      path := path + [current];
    }

    /** `Json::Value & b = *path.back(); current = &b[b.size()]`. */
    method NewArrayElement() returns (error: Option<Error>)
      requires Valid() && path != []
      modifies this
      ensures Valid()
      ensures Outcome(State(), error) == TreeStep(old(State()), Call.NewArrayElement)
    {
      TreeStepValid(State(), Call.NewArrayElement);
      ValidStack(State());
      var top := path[|path| - 1];
      var element := WithElement(Get(output, top).value);
      if element.None? {
        return Some(NotAContainer);
      }
      output := Put(output, top, element.value.0);
      current := top + [Index(element.value.1)];
      return None;
    }

    method EndArray() returns (error: Option<Error>)
      requires Valid() && path != []
      modifies this
      ensures Valid()
      ensures Outcome(State(), error) == TreeStep(old(State()), Call.EndArray)
    {
      TreeStepValid(State(), Call.EndArray);
      path := path[..|path| - 1];
      return None;
    }

    /** `*current = v`, shared by every scalar writer. */
    method Store(c: Call, v: Json)
      requires Valid() && IsScalar(c) && v == ScalarValue(c)
      modifies this`output
      ensures Valid()
      ensures Outcome(State(), None) == TreeStep(old(State()), c)
    {
      TreeStepValid(State(), c);
      output := Put(output, current, v);
    }

    method Skip()
      requires Valid()
      modifies this`output
      ensures Valid()
      ensures Outcome(State(), None) == TreeStep(old(State()), Call.Skip)
    {
      Store(Call.Skip, Null);
    }

    method WriteNull()
      requires Valid()
      modifies this`output
      ensures Valid()
      ensures Outcome(State(), None) == TreeStep(old(State()), Call.WriteNull)
    {
      Store(Call.WriteNull, Null);
    }

    method WriteInt(i: Int32)
      requires Valid()
      modifies this`output
      ensures Valid()
      ensures Outcome(State(), None) == TreeStep(old(State()), Call.WriteInt(i))
    {
      Store(Call.WriteInt(i), Int(i));
    }

    method WriteUnsignedInt(i: UInt32)
      requires Valid()
      modifies this`output
      ensures Valid()
      ensures Outcome(State(), None) == TreeStep(old(State()), Call.WriteUnsignedInt(i))
    {
      Store(Call.WriteUnsignedInt(i), UInt(i));
    }

    method WriteLong(i: Int64)
      requires Valid()
      modifies this`output
      ensures Valid()
      ensures Outcome(State(), None) == TreeStep(old(State()), Call.WriteLong(i))
    {
      Store(Call.WriteLong(i), Int(i));
    }

    method WriteUnsignedLong(i: UInt64)
      requires Valid()
      modifies this`output
      ensures Valid()
      ensures Outcome(State(), None) == TreeStep(old(State()), Call.WriteUnsignedLong(i))
    {
      Store(Call.WriteUnsignedLong(i), UInt(i));
    }

    method WriteLongLong(i: Int64)
      requires Valid()
      modifies this`output
      ensures Valid()
      ensures Outcome(State(), None) == TreeStep(old(State()), Call.WriteLongLong(i))
    {
      Store(Call.WriteLongLong(i), Int(i));
    }

    method WriteUnsignedLongLong(i: UInt64)
      requires Valid()
      modifies this`output
      ensures Valid()
      ensures Outcome(State(), None) == TreeStep(old(State()), Call.WriteUnsignedLongLong(i))
    {
      Store(Call.WriteUnsignedLongLong(i), UInt(i));
    }

    method WriteString(s: Bytes)
      requires Valid()
      modifies this`output
      ensures Valid()
      ensures Outcome(State(), None) == TreeStep(old(State()), Call.WriteString(s))
    {
      Store(Call.WriteString(s), String(s));
    }

    method WriteStringUtf8(s: string)
      requires Valid()
      modifies this`output
      ensures Valid()
      ensures Outcome(State(), None) == TreeStep(old(State()), Call.WriteStringUtf8(s))
    {
      Store(Call.WriteStringUtf8(s), String(Utf8.EncodeAll(s)));
    }

    method WriteBool(b: bool)
      requires Valid()
      modifies this`output
      ensures Valid()
      ensures Outcome(State(), None) == TreeStep(old(State()), Call.WriteBool(b))
    {
      Store(Call.WriteBool(b), Bool(b));
    }
  }
}
