/** The check of model-supplied tool arguments (`agent_engine/agent_loop.py`, `_validate_tool_args`).
    A schema whose own shape is wrong is not part of this model, and of each argument only the kind
    matters to the check. */
module ToolArgs {
  import opened Basics

  const MAX_TOOL_ARG_BYTES := 16000

  datatype Kind = NullKind | BoolKind | IntKind | FloatKind | StringKind | ListKind | DictKind

  datatype Arg = Arg(key: string, kind: Kind, encoded: string)

  /** The arguments of one call in their order, with the size of their serialised form if they have one. */
  datatype Args = NotAnObject | Object(fields: seq<Arg>, bytes: Option<nat>)

  /** What a property's schema says of its type: nothing, or one of a list of names. */
  datatype Property = Untyped | Typed(names: seq<string>)

  datatype Schema = Schema(properties: map<string, Property>, required: seq<string>, closed: bool)

  datatype Rejection =
    | NotObject | NotSerialisable | TooLong
    | Missing(key: string) | Unexpected(keys: set<string>) | WrongType(key: string)

  function KeysOf(fields: seq<Arg>): set<string> { set f | f in fields :: f.key }

  /** The kinds whose values are instances of the Python types listed for a type name; a Python
      boolean is an integer too. */
  function InstanceKinds(name: string): set<Kind> {
    if name == "string" then {StringKind}
    else if name == "number" then {IntKind, FloatKind, BoolKind}
    else if name == "integer" then {IntKind, BoolKind}
    else if name == "boolean" then {BoolKind}
    else if name == "object" then {DictKind}
    else if name == "array" then {ListKind}
    else if name == "null" then {NullKind}
    else {}
  }

  function AllInstanceKinds(names: seq<string>): set<Kind> {
    if names == [] then {}
    else AllInstanceKinds(names[..|names| - 1]) + InstanceKinds(names[|names| - 1])
  }

  predicate Accepts(property: Property, kind: Kind) {
    property.Typed? && AllInstanceKinds(property.names) != {} ==>
      if kind == BoolKind then "boolean" in property.names else kind in AllInstanceKinds(property.names)
  }

  predicate Fits(schema: Schema, arg: Arg) {
    arg.key in schema.properties ==> Accepts(schema.properties[arg.key], arg.kind)
  }

  function FirstMissing(required: seq<string>, keys: set<string>): Option<Rejection> {
    if required == [] then None
    else if required[0] !in keys then Some(Missing(required[0]))
    else FirstMissing(required[1..], keys)
  }

  function FirstMisfit(schema: Schema, fields: seq<Arg>): Option<Rejection> {
    if fields == [] then None
    else if !Fits(schema, fields[0]) then Some(WrongType(fields[0].key))
    else FirstMisfit(schema, fields[1..])
  }

  function Rejected(schema: Schema, args: Args): Option<Rejection> {
    if args.NotAnObject? then Some(NotObject)
    else if args.bytes.None? then Some(NotSerialisable)
    else if args.bytes.value > MAX_TOOL_ARG_BYTES then Some(TooLong)
    else
      var keys := KeysOf(args.fields);
      var missing := FirstMissing(schema.required, keys);
      if missing.Some? then missing
      else if schema.closed && keys - schema.properties.Keys != {} then Some(Unexpected(keys - schema.properties.Keys))
      else FirstMisfit(schema, args.fields)
  }

  method ValidateToolArgs(schema: Schema, args: Args) returns (rejection: Option<Rejection>)
    ensures rejection == Rejected(schema, args)
  {
    if args.NotAnObject? {
      return Some(NotObject);
    }
    if args.bytes.None? {
      return Some(NotSerialisable);
    }
    if args.bytes.value > MAX_TOOL_ARG_BYTES {
      return Some(TooLong);
    }
    var keys := KeysOf(args.fields);
    for i := 0 to |schema.required|
      invariant FirstMissing(schema.required, keys) == FirstMissing(schema.required[i..], keys)
    {
      if schema.required[i] !in keys {
        return Some(Missing(schema.required[i]));
      }
    }
    if schema.closed {
      var unknown := keys - schema.properties.Keys;
      if unknown != {} {
        return Some(Unexpected(unknown));
      }
    }
    for i := 0 to |args.fields|
      invariant FirstMisfit(schema, args.fields) == FirstMisfit(schema, args.fields[i..])
    {
      var arg := args.fields[i];
      if arg.key in schema.properties && schema.properties[arg.key].Typed? {
        var names := schema.properties[arg.key].names;
        var kinds: set<Kind> := {};
        for j := 0 to |names|
          invariant kinds == AllInstanceKinds(names[..j])
        {
          TakeOneMore([], names, j);
          kinds := kinds + InstanceKinds(names[j]);
        }
        TakeAll(names);
        if kinds != {} {
          if arg.kind == BoolKind {
            if "boolean" !in names {
              return Some(WrongType(arg.key));
            }
          } else if arg.kind !in kinds {
            return Some(WrongType(arg.key));
          }
        }
      }
    }
    rejection := None;
  }

  // The schema's meaning, without Python's types.

  predicate Known(name: string) {
    name in {"string", "number", "integer", "boolean", "object", "array", "null"}
  }

  predicate Matches(kind: Kind, name: string) {
    match kind
    case NullKind => name == "null"
    case BoolKind => name == "boolean"
    case IntKind => name == "integer" || name == "number"
    case FloatKind => name == "number"
    case StringKind => name == "string"
    case ListKind => name == "array"
    case DictKind => name == "object"
  }

  ghost predicate Means(property: Property, kind: Kind) {
    property.Typed? && (exists name :: name in property.names && Known(name)) ==>
      exists name :: name in property.names && Matches(kind, name)
  }

  ghost predicate HasKey(fields: seq<Arg>, key: string) { exists f :: f in fields && f.key == key }

  /** A JSON text of at most 16000 bytes. */
  predicate Measured(args: Args) { args.Object? && args.bytes.Some? && args.bytes.value <= 16000 }

  ghost predicate AllPresent(required: seq<string>, fields: seq<Arg>) {
    forall key :: key in required ==> HasKey(fields, key)
  }

  ghost predicate AllExpected(schema: Schema, fields: seq<Arg>) {
    schema.closed ==> forall f :: f in fields ==> f.key in schema.properties
  }

  ghost predicate OfItsType(schema: Schema, arg: Arg) {
    arg.key in schema.properties ==> Means(schema.properties[arg.key], arg.kind)
  }

  ghost predicate Conforms(schema: Schema, args: Args) {
    && Measured(args) && AllPresent(schema.required, args.fields) && AllExpected(schema, args.fields)
    && forall arg :: arg in args.fields ==> OfItsType(schema, arg)
  }

  /** What is wrong with the arguments when they are rejected for this: the first fault, in the order
      shape, size, missing keys, unknown keys, types. */
  ghost predicate Breaks(schema: Schema, args: Args, why: Rejection) {
    match why
    case NotObject => args.NotAnObject?
    case NotSerialisable => args.Object? && args.bytes == None
    case TooLong => args.Object? && args.bytes.Some? && args.bytes.value > 16000
    case Missing(key) => Measured(args) && exists i: nat :: FirstAbsent(schema.required, args.fields, i, key)
    case Unexpected(keys) =>
      && Measured(args) && AllPresent(schema.required, args.fields) && schema.closed && keys != {}
      && forall key :: key in keys <==> HasKey(args.fields, key) && key !in schema.properties
    case WrongType(key) =>
      && Measured(args) && AllPresent(schema.required, args.fields) && AllExpected(schema, args.fields)
      && exists i: nat :: FirstOfWrongType(schema, args.fields, i, key)
  }

  ghost predicate FirstAbsent(required: seq<string>, fields: seq<Arg>, i: nat, key: string) {
    i < |required| && required[i] == key && !HasKey(fields, key)
    && forall k | 0 <= k < i :: HasKey(fields, required[k])
  }

  ghost predicate FirstOfWrongType(schema: Schema, fields: seq<Arg>, i: nat, key: string) {
    i < |fields| && fields[i].key == key && !OfItsType(schema, fields[i])
    && forall k | 0 <= k < i :: OfItsType(schema, fields[k])
  }

  lemma {:induction false} AllInstanceKindsHas(names: seq<string>, kind: Kind)
    ensures kind in AllInstanceKinds(names) <==> exists name :: name in names && kind in InstanceKinds(name)
  {
    if names != [] {
      var rest, last := names[..|names| - 1], names[|names| - 1];
      AllInstanceKindsHas(rest, kind);
      assert forall name :: name in names <==> name in rest || name == last;
    }
  }

  lemma KnownHasKinds(name: string)
    ensures Known(name) <==> InstanceKinds(name) != {}
  {
  }

  lemma MatchesIffInstance(kind: Kind, name: string)
    requires kind != BoolKind
    ensures Matches(kind, name) <==> kind in InstanceKinds(name)
  {
  }

  /** Python's instance tests, with booleans kept apart, read the declared type as JSON Schema does. */
  lemma AcceptsIffMeans(property: Property, kind: Kind)
    ensures Accepts(property, kind) <==> Means(property, kind)
  {
    if property.Typed? {
      var names := property.names;
      assert AllInstanceKinds(names) != {} <==> exists name :: name in names && Known(name) by {
        if k :| k in AllInstanceKinds(names) {
          AllInstanceKindsHas(names, k);
          var name :| name in names && k in InstanceKinds(name);
          KnownHasKinds(name);
        }
        if name :| name in names && Known(name) {
          KnownHasKinds(name);
          var k :| k in InstanceKinds(name);
          AllInstanceKindsHas(names, k);
        }
      }
      if kind == BoolKind {
        assert forall name :: Matches(kind, name) <==> name == "boolean";
      } else {
        AllInstanceKindsHas(names, kind);
        forall name ensures Matches(kind, name) <==> kind in InstanceKinds(name) { MatchesIffInstance(kind, name); }
      }
    }
  }

  lemma HasKeyIff(fields: seq<Arg>, key: string)
    ensures key in KeysOf(fields) <==> HasKey(fields, key)
  {
  }

  lemma {:induction false} FirstMissingIs(required: seq<string>, fields: seq<Arg>)
    ensures match FirstMissing(required, KeysOf(fields))
            case None => AllPresent(required, fields)
            case Some(why) => why.Missing? && exists i: nat :: FirstAbsent(required, fields, i, why.key)
  {
    if required != [] {
      HasKeyIff(fields, required[0]);
      FirstMissingIs(required[1..], fields);
      var why := FirstMissing(required, KeysOf(fields));
      if why.None? {
        assert forall key :: key in required <==> key == required[0] || key in required[1..];
      } else if !HasKey(fields, required[0]) {
        assert FirstAbsent(required, fields, 0, why.value.key);
      } else {
        var i: nat :| FirstAbsent(required[1..], fields, i, why.value.key);
        forall k | 0 <= k < i + 1 ensures HasKey(fields, required[k]) {
          if k > 0 { assert required[k] == required[1..][k - 1]; }
        }
        assert FirstAbsent(required, fields, i + 1, why.value.key);
      }
    }
  }

  lemma FitsIff(schema: Schema, arg: Arg)
    ensures Fits(schema, arg) <==> OfItsType(schema, arg)
  {
    if arg.key in schema.properties { AcceptsIffMeans(schema.properties[arg.key], arg.kind); }
  }

  lemma {:induction false} FirstMisfitIs(schema: Schema, fields: seq<Arg>)
    ensures match FirstMisfit(schema, fields)
            case None => forall arg :: arg in fields ==> OfItsType(schema, arg)
            case Some(why) => why.WrongType? && exists i: nat :: FirstOfWrongType(schema, fields, i, why.key)
  {
    if fields != [] {
      FitsIff(schema, fields[0]);
      FirstMisfitIs(schema, fields[1..]);
      var why := FirstMisfit(schema, fields);
      if why.None? {
        assert forall arg :: arg in fields <==> arg == fields[0] || arg in fields[1..];
      } else if !OfItsType(schema, fields[0]) {
        assert FirstOfWrongType(schema, fields, 0, why.value.key);
      } else {
        var i: nat :| FirstOfWrongType(schema, fields[1..], i, why.value.key);
        forall k | 0 <= k < i + 1 ensures OfItsType(schema, fields[k]) {
          if k > 0 { assert fields[k] == fields[1..][k - 1]; }
        }
        assert FirstOfWrongType(schema, fields, i + 1, why.value.key);
      }
    }
  }

  lemma UnexpectedIs(schema: Schema, fields: seq<Arg>)
    ensures var unknown := KeysOf(fields) - schema.properties.Keys;
            && (forall key :: key in unknown <==> HasKey(fields, key) && key !in schema.properties)
            && (AllExpected(schema, fields) <==> !schema.closed || unknown == {})
  {
    var unknown := KeysOf(fields) - schema.properties.Keys;
    forall key ensures key in unknown <==> HasKey(fields, key) && key !in schema.properties {
      HasKeyIff(fields, key);
    }
    if unknown == {} {
      forall f | f in fields ensures f.key in schema.properties { assert f.key !in unknown; }
    }
  }

  /** Arguments are rejected for their first fault, and pass exactly when they have none. */
  lemma RejectionIsFirstFault(schema: Schema, args: Args)
    ensures match Rejected(schema, args)
            case None => Conforms(schema, args)
            case Some(why) => Breaks(schema, args, why)
  {
    if Measured(args) {
      FirstMissingIs(schema.required, args.fields);
      UnexpectedIs(schema, args.fields);
      FirstMisfitIs(schema, args.fields);
    }
  }

  lemma FirstIsUnique(required: seq<string>, fields: seq<Arg>, i: nat, key: string)
    requires FirstAbsent(required, fields, i, key)
    ensures !AllPresent(required, fields)
    ensures forall j: nat, other :: FirstAbsent(required, fields, j, other) ==> other == key
  {
    assert required[i] in required;
    forall j: nat, other | FirstAbsent(required, fields, j, other) ensures other == key {
      assert !(j < i) && !(i < j);
    }
  }

  lemma WrongTypeIsUnique(schema: Schema, fields: seq<Arg>, i: nat, key: string)
    requires FirstOfWrongType(schema, fields, i, key)
    ensures exists arg :: arg in fields && !OfItsType(schema, arg)
    ensures forall j: nat, other :: FirstOfWrongType(schema, fields, j, other) ==> other == key
  {
    assert fields[i] in fields;
    forall j: nat, other | FirstOfWrongType(schema, fields, j, other) ensures other == key {
      assert !(j < i) && !(i < j);
    }
  }

  /** There is one first fault, and none in arguments that conform. */
  lemma FaultIsUnique(schema: Schema, args: Args, why: Rejection, other: Rejection)
    requires Breaks(schema, args, why)
    ensures !Conforms(schema, args) && (Breaks(schema, args, other) ==> other == why)
  {
    if why.Missing? {
      var i: nat :| FirstAbsent(schema.required, args.fields, i, why.key);
      FirstIsUnique(schema.required, args.fields, i, why.key);
    } else if why.Unexpected? {
      UnexpectedIs(schema, args.fields);
      assert why.keys == KeysOf(args.fields) - schema.properties.Keys;
    } else if why.WrongType? {
      var i: nat :| FirstOfWrongType(schema, args.fields, i, why.key);
      WrongTypeIsUnique(schema, args.fields, i, why.key);
    }
    if other.Missing? && Breaks(schema, args, other) {
      var i: nat :| FirstAbsent(schema.required, args.fields, i, other.key);
      FirstIsUnique(schema.required, args.fields, i, other.key);
    } else if other.Unexpected? && Breaks(schema, args, other) {
      UnexpectedIs(schema, args.fields);
      assert other.keys == KeysOf(args.fields) - schema.properties.Keys;
    }
  }

  /** Arguments pass exactly when they conform, and are rejected for this reason exactly when it is
      their first fault. */
  lemma NothingRejectedIffConforms(schema: Schema, args: Args)
    ensures Rejected(schema, args) == None <==> Conforms(schema, args)
    ensures forall why :: Rejected(schema, args) == Some(why) <==> Breaks(schema, args, why)
  {
    RejectionIsFirstFault(schema, args);
    forall why ensures Rejected(schema, args) == Some(why) <==> Breaks(schema, args, why) {
      if Rejected(schema, args).Some? {
        FaultIsUnique(schema, args, Rejected(schema, args).value, why);
      } else if Breaks(schema, args, why) {
        FaultIsUnique(schema, args, why, why);
      }
    }
  }
}
