/** Which schemas compile: exactly those that are sound on at most 33 levels, whatever leads from one
    level to the next. */
module SchemaLevels {
  import opened Base
  import opened WrittenNumbers
  import opened JsonPointer
  import opened FastSchema

  /** What a schema needs by itself, apart from the schemas it leads to. */
  predicate SoundAlone(schema: Json, document: Json, builds: Json -> bool) {
    || schema.Bool?
    || (schema.Obj? &&
          if Beyond(schema) then builds(Attached(schema, document))
          else if Keywords(schema) == {"$ref"} then Next(schema, document).Some?
          else if Keywords(schema) == {"oneOf"} then Get(schema, "oneOf").Some? && Get(schema, "oneOf").value.Arr?
          else RequiredSound(schema))
  }

  /** The members an object schema requires are named by texts. */
  predicate RequiredSound(schema: Json) {
    Get(schema, "type") == Some(Str("object")) && Get(schema, "required").Some? ==>
      match Get(schema, "required").value
      case Arr(items) => forall i :: 0 <= i < |items| ==> items[i].Str?
      case _ => true
  }

  /** The schema and all that it leads to are sound, on at most so many levels. */
  ghost predicate Sound(schema: Json, document: Json, levels: nat, builds: Json -> bool)
    decreases levels
  {
    && levels > 0 && SoundAlone(schema, document, builds)
    && forall child :: Needs(schema, document, child) ==> Sound(child, document, levels - 1, builds)
  }

  ghost predicate WellDefined(document: Json) {
    Get(document, "$defs").Some? ==> WellFormed(Get(document, "$defs").value)
  }

  ghost predicate AllNeededCompile(schema: Json, document: Json, depth: nat, builds: Json -> bool) {
    forall child :: Needs(schema, document, child) ==> Compile(child, document, depth + 1, builds).Some?
  }

  ghost predicate TypeNeededCompile(name: string, schema: Json, document: Json, depth: nat, builds: Json -> bool) {
    forall child :: NeedsTyped(name, schema, child) ==> Compile(child, document, depth + 1, builds).Some?
  }

  // ----- lists of schemas -----

  lemma {:induction false} RequiredCompiles(items: seq<Json>)
    ensures RequiredKeys(items).Some? <==> forall i :: 0 <= i < |items| ==> items[i].Str?
  {
    if items != [] {
      RequiredCompiles(items[1..]);
      assert forall i :: 1 <= i < |items| ==> items[i] == items[1..][i - 1];
      assert forall i :: 0 <= i < |items[1..]| ==> items[1..][i] == items[i + 1];
    }
  }

  lemma {:induction false} AllCompile(schemas: seq<Json>, document: Json, depth: nat, builds: Json -> bool)
    requires depth <= DEPTH_MAX
    ensures CompileAll(schemas, document, depth, builds).Some? <==>
      forall child :: child in schemas ==> Compile(child, document, depth + 1, builds).Some?
    decreases |schemas|
  {
    hide Compile;
    if schemas != [] {
      AllCompile(schemas[1..], document, depth, builds);
      forall child ensures child in schemas <==> child == schemas[0] || child in schemas[1..] {
        assert schemas == [schemas[0]] + schemas[1..];
      }
      if forall child :: child in schemas ==> Compile(child, document, depth + 1, builds).Some? {
        assert schemas[0] in schemas;
      }
    }
  }

  lemma {:induction false} FieldsCompile(keys: seq<string>, properties: map<string, Json>, document: Json, depth: nat,
                                         builds: Json -> bool)
    requires depth <= DEPTH_MAX
    ensures CompileFields(keys, properties, document, depth, builds).Some? <==>
      forall k :: k in keys ==> k in properties && Compile(properties[k], document, depth + 1, builds).Some?
    decreases |keys|
  {
    hide Compile;
    if keys != [] {
      FieldsCompile(keys[1..], properties, document, depth, builds);
      assert keys == [keys[0]] + keys[1..];
    }
  }

  // ----- one type -----

  lemma ArrayCompiles(schema: Json, document: Json, depth: nat, builds: Json -> bool)
    requires depth <= DEPTH_MAX
    ensures CompileType("array", schema, document, depth, builds).Some? <==>
      TypeNeededCompile("array", schema, document, depth, builds)
  {
    hide Compile;
    if Get(schema, "items").Some? {
      assert NeedsTyped("array", schema, Get(schema, "items").value);
    }
  }

  lemma PropertyNames(schema: Json)
    requires WellFormed(schema)
    ensures forall k :: k in Properties(schema) <==> k in PropertyKeys(schema)
  {
    if Get(schema, "properties").Some? && Get(schema, "properties").value.Obj? {
      ChildOf(schema, "properties");
    }
  }

  lemma RequiredParts(schema: Json)
    requires Get(schema, "type") == Some(Str("object"))
    ensures Required(schema).Some? <==> RequiredSound(schema)
  {
    if Get(schema, "required").Some? && Get(schema, "required").value.Arr? {
      RequiredCompiles(Get(schema, "required").value.items);
    }
    hide RequiredKeys;
  }

  /** What an object schema leads to: its properties, and the schema of its other members. */
  lemma ObjectNeeds(schema: Json, document: Json, depth: nat, builds: Json -> bool)
    requires forall k :: k in Properties(schema) <==> k in PropertyKeys(schema)
    ensures TypeNeededCompile("object", schema, document, depth, builds) <==>
      && (forall k :: k in PropertyKeys(schema) ==>
            k in Properties(schema) && Compile(Properties(schema)[k], document, depth + 1, builds).Some?)
      && (Get(schema, "additionalProperties").Some? ==>
            Compile(Get(schema, "additionalProperties").value, document, depth + 1, builds).Some?)
  {
    hide Compile, Properties, PropertyKeys, Get;
    if TypeNeededCompile("object", schema, document, depth, builds) {
      forall k | k in PropertyKeys(schema)
        ensures k in Properties(schema) && Compile(Properties(schema)[k], document, depth + 1, builds).Some?
      {
        var i :| 0 <= i < |PropertyKeys(schema)| && PropertyKeys(schema)[i] == k;
        assert IsProperty(schema, PropertyKeys(schema)[i], Properties(schema)[k]);
        assert NeedsTyped("object", schema, Properties(schema)[k]);
      }
      if Get(schema, "additionalProperties").Some? {
        assert NeedsTyped("object", schema, Get(schema, "additionalProperties").value);
      }
    }
  }

  lemma ObjectCompiles(schema: Json, document: Json, depth: nat, builds: Json -> bool)
    requires depth <= DEPTH_MAX && WellFormed(schema) && Get(schema, "type") == Some(Str("object"))
    ensures CompileType("object", schema, document, depth, builds).Some? <==>
      RequiredSound(schema) && TypeNeededCompile("object", schema, document, depth, builds)
  {
    FieldsCompile(PropertyKeys(schema), Properties(schema), document, depth, builds);
    PropertyNames(schema);
    RequiredParts(schema);
    ObjectNeeds(schema, document, depth, builds);
    hide Compile, CompileFields, Required, RequiredSound, WellFormed, Properties, PropertyKeys, TypeNeededCompile,
      Bound;
  }

  lemma TypeCompiles(name: string, schema: Json, document: Json, depth: nat, builds: Json -> bool)
    requires depth <= DEPTH_MAX && WellFormed(schema) && Get(schema, "type") == Some(Str(name)) && Handled(name).Some?
    ensures CompileType(name, schema, document, depth, builds).Some? <==>
      RequiredSound(schema) && TypeNeededCompile(name, schema, document, depth, builds)
  {
    HandledKeys(name);
    if name == "array" {
      hide *;
      ArrayCompiles(schema, document, depth, builds);
      OnlyObjectsRequire(schema, name);
    } else if name == "object" {
      hide *;
      ObjectCompiles(schema, document, depth, builds);
    } else {
      hide Compile, WellFormed, Edge, Bound;
    }
  }

  lemma OnlyObjectsRequire(schema: Json, name: string)
    requires Get(schema, "type") == Some(Str(name)) && name != "object"
    ensures RequiredSound(schema)
  {
  }

  // ----- one level -----

  lemma LeftLevel(schema: Json, document: Json, depth: nat, builds: Json -> bool)
    requires depth <= DEPTH_MAX && schema.Obj? && WellFormed(schema) && Beyond(schema)
    ensures Compile(schema, document, depth, builds).Some? <==> builds(Attached(schema, document))
    ensures AllNeededCompile(schema, document, depth, builds)
  {
    LeftToLibrary(schema, document, depth, builds);
    BeyondIsLeft(schema);
    hide Compile, Beyond, Attached, WellFormed, NeedsTyped, Handled, Constraining;
  }

  lemma ReferenceLevel(schema: Json, document: Json, depth: nat, builds: Json -> bool)
    requires depth <= DEPTH_MAX && schema.Obj? && Constraining(schema.keys) == ["$ref"]
    ensures Compile(schema, document, depth, builds).Some? <==>
      Next(schema, document).Some? && AllNeededCompile(schema, document, depth, builds)
  {
    hide Constraining, Resolve, CompileType, CompileAll;
    if Next(schema, document).Some? {
      assert Needs(schema, document, Next(schema, document).value);
    }
  }

  lemma ChoiceLevel(schema: Json, document: Json, depth: nat, builds: Json -> bool)
    requires depth <= DEPTH_MAX && schema.Obj? && Constraining(schema.keys) == ["oneOf"]
    ensures Compile(schema, document, depth, builds).Some? <==>
      && Get(schema, "oneOf").Some? && Get(schema, "oneOf").value.Arr?
      && AllNeededCompile(schema, document, depth, builds)
  {
    AllCompile(Choices(schema), document, depth, builds);
    forall child ensures Needs(schema, document, child) <==> child in Choices(schema) {
    }
    hide Constraining, Resolve, CompileType, CompileAll, Choices, Needs;
  }

  lemma TypeLevel(schema: Json, document: Json, depth: nat, builds: Json -> bool)
    requires depth <= DEPTH_MAX && schema.Obj? && WellFormed(schema) && !Beyond(schema)
    requires Constraining(schema.keys) != ["$ref"] && Constraining(schema.keys) != ["oneOf"]
    ensures Compile(schema, document, depth, builds).Some? <==>
      RequiredSound(schema) && AllNeededCompile(schema, document, depth, builds)
  {
    BeyondIsLeft(schema);
    var name := Get(schema, "type").value.text;
    TypeCompiles(name, schema, document, depth, builds);
    forall child ensures Needs(schema, document, child) <==> NeedsTyped(name, schema, child) {
      hide NeedsTyped;
    }
    hide Needs, Constraining, Resolve, CompileType, CompileAll, Handled, NeedsTyped, RequiredSound, WellFormed, Beyond;
  }

  lemma OneLevel(schema: Json, document: Json, depth: nat, builds: Json -> bool)
    requires depth <= DEPTH_MAX && WellFormed(schema)
    ensures Compile(schema, document, depth, builds).Some? <==>
      SoundAlone(schema, document, builds) && AllNeededCompile(schema, document, depth, builds)
  {
    if schema.Obj? {
      ConstrainingOne(schema, "$ref");
      ConstrainingOne(schema, "oneOf");
      hide Beyond, Keywords, WellFormed, Compile, AllNeededCompile, Attached, Next, RequiredSound, Constraining, Get;
      if Beyond(schema) {
        LeftLevel(schema, document, depth, builds);
      } else if Constraining(schema.keys) == ["$ref"] {
        ReferenceLevel(schema, document, depth, builds);
      } else if Constraining(schema.keys) == ["oneOf"] {
        ChoiceLevel(schema, document, depth, builds);
      } else {
        TypeLevel(schema, document, depth, builds);
      }
    } else {
      hide WellFormed, NeedsTyped;
    }
  }

  lemma NeededWellFormed(schema: Json, document: Json, child: Json)
    requires WellFormed(schema) && WellDefined(document) && Needs(schema, document, child)
    ensures WellFormed(child)
  {
    hide Constraining, Handled;
    var keys := Constraining(schema.keys);
    if keys == ["$ref"] {
      ChildOf(Get(document, "$defs").value, Get(schema, "$ref").value.text[|PREFIX|..]);
    } else if keys == ["oneOf"] {
      ChildOf(schema, "oneOf");
    } else if Get(schema, "items") == Some(child) {
      ChildOf(schema, "items");
    } else if Get(schema, "additionalProperties") == Some(child) {
      ChildOf(schema, "additionalProperties");
    } else {
      ChildOf(schema, "properties");
    }
  }

  /** A schema compiles exactly when it is sound on the levels that are left, 33 at the top. */
  lemma {:induction false} CompilesExactly(schema: Json, document: Json, depth: nat, builds: Json -> bool)
    requires WellFormed(schema) && WellDefined(document)
    ensures Compile(schema, document, depth, builds).Some? <==>
      Sound(schema, document, if depth > 32 then 0 else 33 - depth, builds)
    decreases (if depth > 32 then 0 else 33 - depth)
  {
    hide Needs, SoundAlone, WellFormed, WellDefined;
    if depth <= 32 {
      OneLevel(schema, document, depth, builds);
      forall child | Needs(schema, document, child)
        ensures Compile(child, document, depth + 1, builds).Some? <==> Sound(child, document, 32 - depth, builds)
      {
        NeededWellFormed(schema, document, child);
        CompilesExactly(child, document, depth + 1, builds);
      }
      hide Compile;
    }
  }
}
