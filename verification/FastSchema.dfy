/** The schema compiler: JSON Schema documents compiled to a small validator, against the meaning
    of the keywords (JSON Schema 2020-12, Core sections 8.2.3.1 and 10, Validation section 6). */
module FastSchema {
  import opened Base
  import opened Floats
  import opened FloatOrder
  import opened WrittenNumbers
  import opened JsonPointer
  import Utf8
  import Values

  const DEPTH_MAX: nat := 32
  const NEGATIVE_INFINITY: F64 := 0xFFF0_0000_0000_0000
  const POSITIVE_INFINITY: F64 := 0x7FF0_0000_0000_0000

  // ----- what the keywords mean -----

  predicate TypeIs(name: string, v: Json) {
    match name
    case "null" => v.Null?
    case "boolean" => v.Bool?
    case "number" => v.Num?
    case "integer" => v.Num? && Whole(v.number)
    case "string" => v.Str?
    case "array" => v.Arr?
    case "object" => v.Obj?
    case _ => false
  }

  function Limit(schema: Json, key: string): Option<Written> {
    match Get(schema, key)
    case Some(Num(number)) => Some(number)
    case _ => None
  }

  predicate Above(minimum: Option<Written>, count: nat) {
    minimum.Some? ==> Exactly(minimum.value) <= UnitsOf(count)
  }

  predicate Below(maximum: Option<Written>, count: nat) {
    maximum.Some? ==> UnitsOf(count) <= Exactly(maximum.value)
  }

  predicate Within(schema: Json, least: string, most: string, count: nat) {
    Above(Limit(schema, least), count) && Below(Limit(schema, most), count)
  }

  predicate Between(minimum: Option<Written>, maximum: Option<Written>, x: Written) {
    && (minimum.Some? ==> Exactly(minimum.value) <= Exactly(x))
    && (maximum.Some? ==> Exactly(x) <= Exactly(maximum.value))
  }

  /** The members a schema requires; none of them counts when it is no list. */
  predicate Supplied(schema: Json, v: Json)
    requires v.Obj?
  {
    Get(schema, "required").Some? && Get(schema, "required").value.Arr? ==>
      forall i :: 0 <= i < |Get(schema, "required").value.items| ==>
        Get(schema, "required").value.items[i].Str? ==> Get(schema, "required").value.items[i].text in v.vals
  }

  /** The assertions of one schema object that do not look into other schemas. */
  predicate Assertions(schema: Json, v: Json) {
    && (Get(schema, "type").Some? ==> Get(schema, "type").value.Str? && TypeIs(Get(schema, "type").value.text, v))
    && (v.Num? ==> Between(Limit(schema, "minimum"), Limit(schema, "maximum"), v.number))
    && (v.Str? ==> Within(schema, "minLength", "maxLength", |v.text|))
    && (v.Arr? ==> Within(schema, "minItems", "maxItems", |v.items|))
    && (v.Obj? ==> Within(schema, "minProperties", "maxProperties", |v.keys|))
    && (v.Obj? ==> Supplied(schema, v))
  }

  function Properties(schema: Json): map<string, Json> {
    match Get(schema, "properties")
    case Some(Obj(_, vals)) => vals
    case _ => map[]
  }

  function Choices(schema: Json): seq<Json> {
    match Get(schema, "oneOf")
    case Some(Arr(items)) => items
    case _ => []
  }

  predicate Simple(name: string) {
    name in {"null", "boolean", "number", "integer", "string", "array", "object"}
  }

  /** The keyword says something, beside a type of that name, that has a meaning here. */
  predicate Meant(key: string, name: string) {
    match key
    case "type" => true
    case "minimum" => name == "number" || name == "integer"
    case "maximum" => name == "number" || name == "integer"
    case "minLength" => name == "string"
    case "maxLength" => name == "string"
    case "minItems" => name == "array"
    case "maxItems" => name == "array"
    case "items" => name == "array"
    case "minProperties" => name == "object"
    case "maxProperties" => name == "object"
    case "properties" => name == "object"
    case "required" => name == "object"
    case "additionalProperties" => name == "object"
    case _ => false
  }

  /** The keywords of a schema object that are not for the reader alone. */
  function Keywords(schema: Json): set<string>
    requires schema.Obj?
  {
    set k | k in schema.vals && k != "title" && k != "description"
  }

  /** A schema object with keywords that have no meaning here: patterns, enumerations, the names of
      properties, several types. */
  predicate Beyond(schema: Json)
    requires schema.Obj?
  {
    && Keywords(schema) != {"$ref"} && Keywords(schema) != {"oneOf"}
    && match Get(schema, "type")
       case Some(Str(name)) => !Simple(name) || exists k :: k in Keywords(schema) && !Meant(k, name)
       case _ => true
  }

  /** The schema that goes to the library: the keywords of the schema object, and the definitions of
      the document. */
  function Attached(schema: Json, document: Json): Json
    requires schema.Obj?
  {
    var defs := if Get(document, "$defs").Some? then Get(document, "$defs").value else Json.Null;
    Obj(if "$defs" in schema.keys then schema.keys else schema.keys + ["$defs"], schema.vals["$defs" := defs])
  }

  /** A value meets a schema; references are followed at most `fuel` deep. What a schema object
      beyond these keywords accepts is the verdict of a library, the oracle. */
  ghost predicate Accepts(schema: Json, document: Json, v: Json, fuel: nat, oracle: (Json, Json) -> bool)
    decreases fuel, 1
  {
    if fuel == 0 then false
    else if schema.Bool? then schema.b
    else if schema.Obj? && Beyond(schema) then oracle(Attached(schema, document), v)
    else
      && Assertions(schema, v)
      && (Get(schema, "$ref").Some? ==>
        Pointed(document, Get(schema, "$ref").value).Some?
          && Accepts(Pointed(document, Get(schema, "$ref").value).value, document, v, fuel - 1, oracle))
      && (Get(schema, "oneOf").Some? ==> CountAccepted(Choices(schema), document, v, fuel, oracle) == 1)
      && (v.Arr? && Get(schema, "items").Some? ==>
        forall i :: 0 <= i < |v.items| ==> Accepts(Get(schema, "items").value, document, v.items[i], fuel - 1, oracle))
      && (v.Obj? ==> forall k :: k in v.vals && k in Properties(schema) ==>
          Accepts(Properties(schema)[k], document, v.vals[k], fuel - 1, oracle))
      && (v.Obj? && Get(schema, "additionalProperties").Some? ==>
        forall k :: k in v.vals && k !in Properties(schema) ==>
          Accepts(Get(schema, "additionalProperties").value, document, v.vals[k], fuel - 1, oracle))
  }

  ghost function CountAccepted(choices: seq<Json>, document: Json, v: Json, fuel: nat,
                               oracle: (Json, Json) -> bool): nat
    requires fuel > 0
    decreases fuel, 0, |choices|
  {
    if choices == [] then 0
    else
      (if Accepts(choices[0], document, v, fuel - 1, oracle) then 1 else 0)
      + CountAccepted(choices[1..], document, v, fuel, oracle)
  }

  // ----- the compiled validator -----

  datatype Validator =
    | NullType
    | Boolean
    | Number(minimum: F64, maximum: F64, integer: bool)
    | Text(shortest: nat, longest: nat)
    | Array(fewest: nat, most: nat, items: Validator)
    | Object(fewest: nat, most: nat, fields: map<string, Validator>, required: seq<string>, additional: Validator)
    | OneOf(choices: seq<Validator>)
    | Any(accept: bool)
    | Reference(schema: Json)

  predicate Annotation(key: string) {
    key == "description" || key == "title"
  }

  /** The keywords of a schema that constrain anything. */
  function Constraining(keys: seq<string>): seq<string> {
    if keys == [] then [] else (if Annotation(keys[0]) then [] else [keys[0]]) + Constraining(keys[1..])
  }

  const NUMBER_KEYS := {"type", "minimum", "maximum"}
  const TEXT_KEYS := {"type", "minLength", "maxLength"}
  const ARRAY_KEYS := {"type", "minItems", "maxItems", "items"}
  const OBJECT_KEYS := {"type", "minProperties", "maxProperties", "properties", "required", "additionalProperties"}

  /** The keywords handled for a type; none when the type itself is not handled. */
  function Handled(name: string): Option<set<string>> {
    if name == "null" || name == "boolean" then Some({"type"})
    else if name == "number" || name == "integer" then Some(NUMBER_KEYS)
    else if name == "string" then Some(TEXT_KEYS)
    else if name == "array" then Some(ARRAY_KEYS)
    else if name == "object" then Some(OBJECT_KEYS)
    else None
  }

  function CountOr(limit: Option<Written>, missing: nat): nat {
    if limit.Some? && AsCount(limit.value).Some? then AsCount(limit.value).value else missing
  }

  function Bound(schema: Json, key: string, missing: nat): nat {
    CountOr(Limit(schema, key), missing)
  }

  function Edge(schema: Json, key: string, missing: F64): F64 {
    match Limit(schema, key)
    case Some(w) => AsNumber(w)
    case None => missing
  }

  function RequiredKeys(items: seq<Json>): Option<seq<string>> {
    if items == [] then Some([])
    else if !items[0].Str? then None
    else
      match RequiredKeys(items[1..])
      case None => None
      case Some(rest) => Some([items[0].text] + rest)
  }

  function Required(schema: Json): Option<seq<string>> {
    match Get(schema, "required")
    case Some(Arr(items)) => RequiredKeys(items)
    case _ => Some([])
  }

  function PropertyKeys(schema: Json): seq<string> {
    match Get(schema, "properties")
    case Some(Obj(keys, _)) => keys
    case _ => []
  }

  /** The library's own validator; none when the library refuses the schema. */
  function Fallback(schema: Json, document: Json, builds: Json -> bool): Option<Validator>
    requires schema.Obj?
  {
    if builds(Attached(schema, document)) then Some(Reference(Attached(schema, document))) else None
  }

  /** None when compilation fails. */
  function Compile(schema: Json, document: Json, depth: nat, builds: Json -> bool): Option<Validator>
    decreases (if depth > DEPTH_MAX then 0 else DEPTH_MAX + 1 - depth), 3, 0
  {
    if depth > DEPTH_MAX then None
    else if schema.Bool? then Some(Any(schema.b))
    else if !schema.Obj? then None
    else
      var keys := Constraining(schema.keys);
      if keys == ["$ref"] then
        if Get(schema, "$ref").None? || Resolve(document, Get(schema, "$ref").value).None? then None
        else Compile(Resolve(document, Get(schema, "$ref").value).value, document, depth + 1, builds)
      else if keys == ["oneOf"] then
        if Get(schema, "oneOf").None? || !Get(schema, "oneOf").value.Arr? then None
        else
          match CompileAll(Choices(schema), document, depth, builds)
          case None => None
          case Some(choices) => Some(OneOf(choices))
      else
        match Get(schema, "type")
        case Some(Str(name)) =>
          if Handled(name).None? || exists i :: 0 <= i < |keys| && keys[i] !in Handled(name).value then
            Fallback(schema, document, builds)
          else CompileType(name, schema, document, depth, builds)
        case _ => Fallback(schema, document, builds)
  }

  function CompileAll(schemas: seq<Json>, document: Json, depth: nat, builds: Json -> bool): Option<seq<Validator>>
    requires depth <= DEPTH_MAX
    decreases DEPTH_MAX + 1 - depth, 0, |schemas|
  {
    if schemas == [] then Some([])
    else
      var first := Compile(schemas[0], document, depth + 1, builds);
      var rest := CompileAll(schemas[1..], document, depth, builds);
      if first.Some? && rest.Some? then Some([first.value] + rest.value) else None
  }

  function CompileFields(keys: seq<string>, properties: map<string, Json>, document: Json,
                         depth: nat, builds: Json -> bool): Option<map<string, Validator>>
    requires depth <= DEPTH_MAX
    decreases DEPTH_MAX + 1 - depth, 0, |keys|
  {
    if keys == [] then Some(map[])
    else if keys[0] !in properties then None
    else
      var first := Compile(properties[keys[0]], document, depth + 1, builds);
      var rest := CompileFields(keys[1..], properties, document, depth, builds);
      if first.Some? && rest.Some? then Some(rest.value[keys[0] := first.value]) else None
  }

  /** A subschema that accepts everything when it is missing. */
  function CompileChild(schema: Json, key: string, document: Json, depth: nat, builds: Json -> bool): Option<Validator>
    requires depth <= DEPTH_MAX
    decreases DEPTH_MAX + 1 - depth, 1, 0
  {
    match Get(schema, key)
    case None => Some(Any(true))
    case Some(child) => Compile(child, document, depth + 1, builds)
  }

  function CompileType(name: string, schema: Json, document: Json, depth: nat, builds: Json -> bool): Option<Validator>
    requires depth <= DEPTH_MAX
    decreases DEPTH_MAX + 1 - depth, 2, 0
  {
    if name == "null" then Some(NullType)
    else if name == "boolean" then Some(Boolean)
    else if name == "number" || name == "integer" then
      Some(Number(Edge(schema, "minimum", NEGATIVE_INFINITY), Edge(schema, "maximum", POSITIVE_INFINITY), name
                  == "integer"))
    else if name == "string" then Some(Text(Bound(schema, "minLength", 0), Bound(schema, "maxLength", WORD_MAX)))
    else if name == "array" then
      match CompileChild(schema, "items", document, depth, builds)
      case None => None
      case Some(items) => Some(Array(Bound(schema, "minItems", 0), Bound(schema, "maxItems", WORD_MAX), items))
    else
      var fields := CompileFields(PropertyKeys(schema), Properties(schema), document, depth, builds);
      var required := Required(schema);
      var additional := CompileChild(schema, "additionalProperties", document, depth, builds);
      if fields.Some? && required.Some? && additional.Some? then
        Some(Object(Bound(schema, "minProperties", 0), Bound(schema, "maxProperties", WORD_MAX), fields.value,
                    required.value, additional.value))
      else None
  }

  /** The verdict of the compiled validator; a fallback asks the given oracle. */
  predicate IsValid(val: Validator, v: Json, oracle: (Json, Json) -> bool)
    decreases val, 1
  {
    match val
    case NullType => v.Null?
    case Boolean => v.Bool?
    case Number(minimum, maximum, integer) =>
      && v.Num? && AtMost(minimum, AsNumber(v.number)) && AtMost(AsNumber(v.number), maximum)
      && (integer ==> Integral(AsNumber(v.number)))
    case Text(shortest, longest) => v.Str?
      && ((shortest == 0 && |Utf8.Encode(v.text)| <= longest) || shortest <= |v.text| <= longest)
    case Array(fewest, most, items) =>
      && v.Arr?
      && fewest <= |v.items| <= most
      && if items.Number? && !items.integer then
           forall i :: 0 <= i < |v.items| ==>
             v.items[i].Num? && AtMost(items.minimum, AsNumber(v.items[i].number))
               && AtMost(AsNumber(v.items[i].number), items.maximum)
         else forall i :: 0 <= i < |v.items| ==> IsValid(items, v.items[i], oracle)
    case Object(fewest, most, fields, required, additional) =>
      && v.Obj?
      && fewest <= |v.keys| <= most
      && (forall i :: 0 <= i < |required| ==> required[i] in v.vals)
      && forall k :: k in v.vals ==>
           if k in fields then IsValid(fields[k], v.vals[k], oracle) else IsValid(additional, v.vals[k], oracle)
    case OneOf(choices) => FirstTwo(val, 0, v, oracle) == 1
    case Any(accept) => accept
    case Reference(schema) => oracle(schema, v)
  }

  /** The accepting choices from i on, counted up to two. */
  function FirstTwo(val: Validator, i: nat, v: Json, oracle: (Json, Json) -> bool): nat
    requires val.OneOf? && i <= |val.choices|
    decreases val, 0, |val.choices| - i
  {
    if i == |val.choices| then 0
    else if !IsValid(val.choices[i], v, oracle) then FirstTwo(val, i + 1, v, oracle)
    else if FirstTwo(val, i + 1, v, oracle) >= 1 then 2
    else 1
  }

  predicate NoFallback(val: Validator) {
    match val
    case Array(_, _, items) => NoFallback(items)
    case Object(_, _, fields, _, additional) => NoFallback(additional) && forall k :: k in fields ==>
      NoFallback(fields[k])
    case OneOf(choices) => forall i :: 0 <= i < |choices| ==> NoFallback(choices[i])
    case Reference(_) => false
    case _ => true
  }

  // ----- schemas and values the theorem is about -----

  /** The compiler reads the limit for what it says, on every count up to a machine word. */
  predicate LeastRead(limit: Option<Written>) {
    limit.Some? && !limit.value.Unsigned? ==> Exactly(limit.value) <= 0
  }

  predicate MostRead(limit: Option<Written>) {
    limit.Some? && !limit.value.Unsigned? ==> Exactly(limit.value) >= UnitsOf(WORD_MAX)
  }

  predicate LimitsRead(schema: Json) {
    && MinimumRead(Limit(schema, "minimum")) && MaximumRead(Limit(schema, "maximum"))
    && LeastRead(Limit(schema, "minLength")) && MostRead(Limit(schema, "maxLength"))
    && LeastRead(Limit(schema, "minItems")) && MostRead(Limit(schema, "maxItems"))
    && LeastRead(Limit(schema, "minProperties")) && MostRead(Limit(schema, "maxProperties"))
  }

  /** At every depth the limits and the references are written so that the compiler reads them for
      what they say; the library reads its own schemas. */
  predicate Admissible(schema: Json) {
    schema.Obj? && !Beyond(schema) ==>
      && LimitsRead(schema)
      && ("$ref" in schema.vals ==> ReferenceRead(schema.vals["$ref"]))
      && ("items" in schema.vals ==> Admissible(schema.vals["items"]))
      && ("additionalProperties" in schema.vals ==> Admissible(schema.vals["additionalProperties"]))
      && ("properties" in schema.vals && schema.vals["properties"].Obj? ==>
        forall k :: k in schema.vals["properties"].vals ==> Admissible(schema.vals["properties"].vals[k]))
      && ("oneOf" in schema.vals && schema.vals["oneOf"].Arr? ==>
        forall i :: 0 <= i < |schema.vals["oneOf"].items| ==> Admissible(schema.vals["oneOf"].items[i]))
  }

  ghost predicate Definitions(document: Json) {
    Get(document, "$defs").Some? && Get(document, "$defs").value.Obj? ==>
      forall k :: k in Get(document, "$defs").value.vals ==>
        Admissible(Get(document, "$defs").value.vals[k]) && WellFormed(Get(document, "$defs").value.vals[k])
  }

  /** Numbers in range, and counts that fit a machine word. */
  ghost predicate Addressable(v: Json) {
    match v
    case Num(number) => InRange(number)
    case Str(text) => |Utf8.Encode(text)| <= WORD_MAX
    case Arr(items) => |items| <= WORD_MAX && forall i :: 0 <= i < |items| ==> Addressable(items[i])
    case Obj(keys, vals) => |keys| <= WORD_MAX && forall k :: k in vals ==> Addressable(vals[k])
    case _ => true
  }

  // ----- small facts -----

  lemma {:induction false} ConstrainingFacts(keys: seq<string>, k: string)
    ensures k in Constraining(keys) <==> k in keys && !Annotation(k)
  {
    if keys != [] {
      ConstrainingFacts(keys[1..], k);
      assert keys == [keys[0]] + keys[1..];
    }
  }

  lemma {:induction false} ConstrainingOnce(keys: seq<string>)
    requires Values.NoDuplicates(keys)
    ensures Values.NoDuplicates(Constraining(keys))
  {
    if keys != [] {
      ConstrainingOnce(keys[1..]);
      ConstrainingFacts(keys[1..], keys[0]);
    }
  }

  /** A list without duplicates of one given element. */
  lemma OneKey(keys: seq<string>, key: string)
    requires Values.NoDuplicates(keys)
    ensures keys == [key] <==> forall k :: k in keys <==> k == key
  {
    if forall k :: k in keys <==> k == key {
      assert key in keys;
      assert keys[0] in keys;
      if |keys| > 1 {
        assert keys[1] in keys;
      }
    }
  }

  lemma HandledMeant(name: string, key: string)
    ensures Handled(name).Some? <==> Simple(name)
    ensures Handled(name).Some? ==> (key in Handled(name).value <==> Meant(key, name))
  {
  }

  /** The keywords that constrain anything, as a set. */
  lemma ConstrainingSet(schema: Json)
    requires WellFormed(schema) && schema.Obj?
    ensures forall k :: k in Constraining(schema.keys) <==> k in Keywords(schema)
  {
    forall k ensures k in Constraining(schema.keys) <==> k in Keywords(schema) {
      ConstrainingFacts(schema.keys, k);
    }
  }

  lemma ConstrainingOne(schema: Json, key: string)
    requires WellFormed(schema) && schema.Obj?
    ensures Constraining(schema.keys) == [key] <==> Keywords(schema) == {key}
  {
    ConstrainingSet(schema);
    ConstrainingOnce(schema.keys);
    OneKey(Constraining(schema.keys), key);
    hide Constraining, Keywords, WellFormed;
  }

  /** The compiler leaves exactly the schema objects beyond these keywords to the library. */
  lemma BeyondIsLeft(schema: Json)
    requires WellFormed(schema) && schema.Obj?
    ensures
      var keys := Constraining(schema.keys);
      Beyond(schema) <==>
        && keys != ["$ref"] && keys != ["oneOf"]
        && match Get(schema, "type")
           case Some(Str(name)) => Handled(name).None? || exists i :: 0 <= i < |keys| && keys[i] !in Handled(name).value
           case _ => true
  {
    ConstrainingOne(schema, "$ref");
    ConstrainingOne(schema, "oneOf");
    hide WellFormed, Constraining, Simple, Meant, Handled, Keywords;
    match Get(schema, "type") {
      case Some(Str(name)) =>
        HandledMeant(name, "type");
        if Handled(name).Some? {
          LeftByName(schema, name, Constraining(schema.keys), Handled(name).value);
        }
      case _ =>
    }
  }

  lemma LeftByName(schema: Json, name: string, list: seq<string>, handled: set<string>)
    requires WellFormed(schema) && schema.Obj? && Handled(name) == Some(handled) && list == Constraining(schema.keys)
    ensures (exists k :: k in Keywords(schema) && !Meant(k, name)) <==>
      (exists i :: 0 <= i < |list| && list[i] !in handled)
  {
    ConstrainingSet(schema);
    hide WellFormed, Constraining, Simple, Meant, Handled, Keywords;
    forall k ensures k in handled <==> Meant(k, name) {
      HandledMeant(name, k);
    }
    SomeOutside(list, handled);
    assert (exists k :: k in Keywords(schema) && !Meant(k, name)) <==> (exists k :: k in list && k !in handled);
  }

  lemma SomeOutside(list: seq<string>, handled: set<string>)
    ensures (exists i :: 0 <= i < |list| && list[i] !in handled) <==> (exists k :: k in list && k !in handled)
  {
    if k :| k in list && k !in handled {
      var i :| 0 <= i < |list| && list[i] == k;
    }
    if i :| 0 <= i < |list| && list[i] !in handled {
      var k := list[i];
      assert k in list;
    }
  }

  /** The library is asked about the same keywords, and about the document's definitions. */
  lemma AttachedFacts(schema: Json, document: Json, key: string)
    requires WellFormed(schema) && schema.Obj?
    ensures
      var attached := Attached(schema, document);
      && attached.Obj? && (WellFormed(document) ==> WellFormed(attached))
      && Get(attached, key)
        == if key == "$defs" then Some(if Get(document, key).Some? then Get(document, key).value else Json.Null)
           else Get(schema, key)
  {
    if Get(document, "$defs").Some? && WellFormed(document) {
      ChildOf(document, "$defs");
    }
  }

  /** A schema constrained by handled keywords only has none of the others. */
  lemma Absent(schema: Json, handled: set<string>, k: string)
    requires WellFormed(schema) && schema.Obj? && !Annotation(k) && k !in handled
    requires forall i :: 0 <= i < |Constraining(schema.keys)| ==> Constraining(schema.keys)[i] in handled
    ensures Get(schema, k).None?
  {
    ConstrainingFacts(schema.keys, k);
    assert k in schema.vals <==> k in schema.keys;
  }

  lemma ChildOf(schema: Json, key: string)
    requires WellFormed(schema) && Get(schema, key).Some?
    ensures WellFormed(Get(schema, key).value)
  {
  }

  lemma {:induction false} CharsWithinBytes(s: string)
    ensures |s| <= |Utf8.Encode(s)|
  {
    if s != "" {
      CharsWithinBytes(s[1..]);
    }
  }

  /** A count limit is read for what it says, on all counts, exactly when it is written with
      digits that fit a word, or says nothing about such counts. */
  lemma LeastExact(limit: Option<Written>)
    requires limit.Some? ==> InRange(limit.value)
    ensures (forall count: nat :: count <= WORD_MAX ==> (CountOr(limit, 0) <= count <==> Above(limit, count))) <==>
      LeastRead(limit)
  {
    UnitsOfOrder(0, 0);
    if LeastRead(limit) {
      forall count: nat | count <= WORD_MAX ensures CountOr(limit, 0) <= count <==> Above(limit, count) {
        UnitsOfOrder(CountOr(limit, 0), count);
        UnitsOfOrder(0, count);
        hide UnitsOf, Units;
      }
    } else {
      assert !(CountOr(limit, 0) <= 0 <==> Above(limit, 0));
    }
  }

  lemma MostExact(limit: Option<Written>)
    requires limit.Some? ==> InRange(limit.value)
    ensures (forall count: nat :: count <= WORD_MAX ==>
             (count <= CountOr(limit, WORD_MAX) <==> Below(limit, count))) <==> MostRead(limit)
  {
    if MostRead(limit) {
      forall count: nat | count <= WORD_MAX ensures count <= CountOr(limit, WORD_MAX) <==> Below(limit, count) {
        UnitsOfOrder(count, CountOr(limit, WORD_MAX));
        UnitsOfOrder(count, WORD_MAX);
        hide UnitsOf, Units;
      }
    } else {
      assert !(WORD_MAX <= CountOr(limit, WORD_MAX) <==> Below(limit, WORD_MAX));
    }
  }

  lemma LimitInRange(schema: Json, key: string)
    requires WellFormed(schema)
    ensures Limit(schema, key).Some? ==> InRange(Limit(schema, key).value)
  {
  }

  /** Both count limits, for one admissible count. */
  lemma CountsRead(schema: Json, least: string, most: string, count: nat)
    requires WellFormed(schema) && LeastRead(Limit(schema, least)) && MostRead(Limit(schema, most)) && count <= WORD_MAX
    ensures Within(schema, least, most, count) <==> Bound(schema, least, 0) <= count <= Bound(schema, most, WORD_MAX)
  {
    LimitInRange(schema, least);
    LimitInRange(schema, most);
    LeastExact(Limit(schema, least));
    MostExact(Limit(schema, most));
    hide LeastRead, MostRead, Above, Below, CountOr, Limit, WellFormed;
  }

  lemma LowEdgeRead(schema: Json, x: Written)
    requires WellFormed(schema) && MinimumRead(Limit(schema, "minimum")) && InRange(x)
    ensures AtMost(Edge(schema, "minimum", NEGATIVE_INFINITY), AsNumber(x))
      <==> (Limit(schema, "minimum").Some? ==> Exactly(Limit(schema, "minimum").value) <= Exactly(x))
  {
    hide MinimumRead, AtMost, Limit, WellFormed, InRange, AsNumber, Exactly, Finite;
    LimitInRange(schema, "minimum");
    if Limit(schema, "minimum").Some? {
      MinimumReadAgrees(Limit(schema, "minimum").value, x);
    } else {
      BetweenInfinities(x);
    }
  }

  lemma HighEdgeRead(schema: Json, x: Written)
    requires WellFormed(schema) && MaximumRead(Limit(schema, "maximum")) && InRange(x)
    ensures AtMost(AsNumber(x), Edge(schema, "maximum", POSITIVE_INFINITY))
      <==> (Limit(schema, "maximum").Some? ==> Exactly(x) <= Exactly(Limit(schema, "maximum").value))
  {
    hide MaximumRead, AtMost, Limit, WellFormed, InRange, AsNumber, Exactly, Finite;
    LimitInRange(schema, "maximum");
    if Limit(schema, "maximum").Some? {
      MaximumReadAgrees(Limit(schema, "maximum").value, x);
    } else {
      BetweenInfinities(x);
    }
  }

  lemma BetweenInfinities(x: Written)
    requires InRange(x)
    ensures AtMost(NEGATIVE_INFINITY, AsNumber(x)) && AtMost(AsNumber(x), POSITIVE_INFINITY)
  {
    assert BINARY64.signBit + BINARY64.infinity == NEGATIVE_INFINITY;
    hide AtMost, AsNumber, Finite;
    NumberFinite(x);
    FiniteWithinInfinities(AsNumber(x));
  }

  /** Both numeric limits, for one number as written. */
  lemma EdgesRead(schema: Json, x: Written)
    requires WellFormed(schema) && MinimumRead(Limit(schema, "minimum")) && MaximumRead(Limit(schema, "maximum"))
    requires InRange(x)
    ensures Between(Limit(schema, "minimum"), Limit(schema, "maximum"), x) <==>
        && AtMost(Edge(schema, "minimum", NEGATIVE_INFINITY), AsNumber(x))
        && AtMost(AsNumber(x), Edge(schema, "maximum", POSITIVE_INFINITY))
  {
    hide MinimumRead, MaximumRead, AtMost, Limit, WellFormed, InRange, AsNumber, Exactly, Edge;
    LowEdgeRead(schema, x);
    HighEdgeRead(schema, x);
  }

  lemma {:induction false} RequiredKeysFacts(items: seq<Json>)
    requires RequiredKeys(items).Some?
    ensures |RequiredKeys(items).value| == |items|
    ensures forall i :: 0 <= i < |items| ==> items[i].Str? && RequiredKeys(items).value[i] == items[i].text
  {
    if items != [] {
      RequiredKeysFacts(items[1..]);
    }
  }

  /** Everything the handled keywords of Accepts need not say when they are missing. */
  lemma AcceptsParts(schema: Json, document: Json, v: Json, fuel: nat, oracle: (Json, Json) -> bool)
    requires fuel > 0 && schema.Obj? && !Beyond(schema)
    ensures Accepts(schema, document, v, fuel, oracle) <==>
      && Assertions(schema, v)
      && (Get(schema, "$ref").Some? ==>
        Pointed(document, Get(schema, "$ref").value).Some?
          && Accepts(Pointed(document, Get(schema, "$ref").value).value, document, v, fuel - 1, oracle))
      && (Get(schema, "oneOf").Some? ==> CountAccepted(Choices(schema), document, v, fuel, oracle) == 1)
      && (v.Arr? && Get(schema, "items").Some? ==>
        forall i :: 0 <= i < |v.items| ==> Accepts(Get(schema, "items").value, document, v.items[i], fuel - 1, oracle))
      && (v.Obj? ==> forall k :: k in v.vals && k in Properties(schema) ==>
          Accepts(Properties(schema)[k], document, v.vals[k], fuel - 1, oracle))
      && (v.Obj? && Get(schema, "additionalProperties").Some? ==>
        forall k :: k in v.vals && k !in Properties(schema) ==>
          Accepts(Get(schema, "additionalProperties").value, document, v.vals[k], fuel - 1, oracle))
  {
  }

  /** Without any assertion keyword there is nothing to assert. */
  lemma NoAssertions(schema: Json, v: Json)
    requires schema.Obj? && Get(schema, "type").None? && Get(schema, "minimum").None? && Get(schema, "maximum").None?
    requires Get(schema, "minLength").None? && Get(schema, "maxLength").None? && Get(schema, "minItems").None?
    requires Get(schema, "maxItems").None?
    requires Get(schema, "minProperties").None? && Get(schema, "maxProperties").None? && Get(schema, "required").None?
    ensures Assertions(schema, v)
  {
  }

  /** A schema whose one constraining keyword is not an assertion. */
  lemma OnlyApplicator(schema: Json, key: string, v: Json)
    requires WellFormed(schema) && schema.Obj? && Constraining(schema.keys) == [key]
    requires (key == "$ref" || key == "oneOf")
    ensures Assertions(schema, v) && Get(schema, key).Some?
    ensures Get(schema, if key == "$ref" then "oneOf" else "$ref").None?
    ensures Get(schema, "items").None? && Get(schema, "additionalProperties").None? && Properties(schema) == map[]
  {
    ConstrainingFacts(schema.keys, key);
    var others := ["type", "minimum", "maximum", "minLength", "maxLength", "minItems", "maxItems", "minProperties",
                   "maxProperties",
      "required", "items", "additionalProperties", "properties", if key == "$ref" then "oneOf" else "$ref"];
    forall i | 0 <= i < |others| ensures Get(schema, others[i]).None? {
      Absent(schema, {key}, others[i]);
    }
    assert others[0] == "type" && others[1] == "minimum" && others[2] == "maximum" && others[3] == "minLength"
      && others[4] == "maxLength";
    assert others[5] == "minItems" && others[6] == "maxItems" && others[7] == "minProperties"
      && others[8] == "maxProperties";
    assert others[9] == "required" && others[10] == "items" && others[11] == "additionalProperties"
      && others[12] == "properties";
    assert others[13] == if key == "$ref" then "oneOf" else "$ref";
    hide WellFormed, Constraining, Get, Assertions;
    NoAssertions(schema, v);
  }

  /** A schema of one type has no applicator but those of its type. */
  lemma OnlyTyped(schema: Json, handled: set<string>, v: Json)
    requires WellFormed(schema) && schema.Obj?
    requires forall i :: 0 <= i < |Constraining(schema.keys)| ==> Constraining(schema.keys)[i] in handled
    requires handled <= NUMBER_KEYS + TEXT_KEYS + ARRAY_KEYS + OBJECT_KEYS
    ensures Get(schema, "$ref").None? && Get(schema, "oneOf").None?
    ensures forall k :: k !in handled && !Annotation(k) ==> Get(schema, k).None?
  {
    forall k | k !in handled && !Annotation(k) ensures Get(schema, k).None? {
      Absent(schema, handled, k);
    }
    assert "$ref" !in handled && "oneOf" !in handled;
  }

  /** The schema names one handled type and uses only the keywords of that type. */
  ghost predicate Typed(schema: Json, name: string) {
    && WellFormed(schema) && schema.Obj? && Admissible(schema)
    && Get(schema, "type") == Some(Str(name)) && Handled(name).Some?
    && forall i :: 0 <= i < |Constraining(schema.keys)| ==> Constraining(schema.keys)[i] in Handled(name).value
  }

  lemma HandledKeys(name: string)
    requires Handled(name).Some?
    ensures Handled(name).value <= NUMBER_KEYS + TEXT_KEYS + ARRAY_KEYS + OBJECT_KEYS
    ensures name in {"null", "boolean", "number", "integer", "string", "array", "object"}
  {
  }

  /** What a typed schema says about a value of its own type and of any other. */
  lemma TypedAssertions(schema: Json, name: string, v: Json)
    requires Typed(schema, name)
    ensures !Beyond(schema) && Get(schema, "$ref").None? && Get(schema, "oneOf").None?
    ensures name != "array" ==> Get(schema, "items").None?
    ensures name != "object" ==> Get(schema, "additionalProperties").None? && Properties(schema) == map[]
    ensures !TypeIs(name, v) ==> !Assertions(schema, v)
    ensures TypeIs(name, v) ==> (Assertions(schema, v) <==>
      && (v.Num? ==> Between(Limit(schema, "minimum"), Limit(schema, "maximum"), v.number))
      && (v.Str? ==> Within(schema, "minLength", "maxLength", |v.text|))
      && (v.Arr? ==> Within(schema, "minItems", "maxItems", |v.items|))
      && (v.Obj? ==> Within(schema, "minProperties", "maxProperties", |v.keys|) && Supplied(schema, v)))
  {
    HandledKeys(name);
    TypedNotBeyond(schema, name);
    OnlyTyped(schema, Handled(name).value, v);
    hide Beyond, WellFormed, Admissible, Constraining, Within, Between, Supplied, Limit;
    assert name != "array" ==> "items" !in Handled(name).value;
    assert name != "object" ==> "additionalProperties" !in Handled(name).value && "properties" !in Handled(name).value;
  }

  lemma TypedNotBeyond(schema: Json, name: string)
    requires WellFormed(schema) && schema.Obj? && Get(schema, "type") == Some(Str(name)) && Handled(name).Some?
    requires forall i :: 0 <= i < |Constraining(schema.keys)| ==> Constraining(schema.keys)[i] in Handled(name).value
    ensures !Beyond(schema)
  {
    BeyondIsLeft(schema);
    hide Beyond, WellFormed, Handled, Constraining;
  }

  lemma TypedParts(schema: Json, name: string)
    requires Typed(schema, name)
    ensures WellFormed(schema) && LimitsRead(schema)
  {
    TypedNotBeyond(schema, name);
    hide WellFormed, LimitsRead, Beyond;
  }

  lemma ScalarExact(schema: Json, name: string, document: Json, depth: nat, v: Json, fuel: nat,
                    oracle: (Json, Json) -> bool, builds: Json -> bool)
    requires Typed(schema, name) && name in {"null", "boolean", "number", "integer"} && depth <= DEPTH_MAX && fuel > 0
    requires Addressable(v)
    ensures CompileType(name, schema, document, depth, builds).Some?
    ensures Accepts(schema, document, v, fuel, oracle)
      == IsValid(CompileType(name, schema, document, depth, builds).value, v, oracle)
  {
    TypedAssertions(schema, name, v);
    AcceptsParts(schema, document, v, fuel, oracle);
    TypedParts(schema, name);
    assert schema.Obj?;
    if v.Num? {
      assert InRange(v.number);
      EdgesRead(schema, v.number);
      WholeKept(v.number);
    }
    hide Typed, Accepts, Assertions, Admissible, AtMost, Between, Limit, WellFormed, LimitsRead, Edge, Addressable,
      AsNumber, Whole,
      Integral;
  }

  /** With an empty minimum, the byte length already settles a short text. */
  lemma TextExact(schema: Json, document: Json, depth: nat, v: Json, fuel: nat, oracle: (Json, Json) -> bool,
                  builds: Json -> bool)
    requires Typed(schema, "string") && depth <= DEPTH_MAX && fuel > 0 && Addressable(v)
    ensures CompileType("string", schema, document, depth, builds).Some?
    ensures Accepts(schema, document, v, fuel, oracle)
      == IsValid(CompileType("string", schema, document, depth, builds).value, v, oracle)
  {
    TypedAssertions(schema, "string", v);
    AcceptsParts(schema, document, v, fuel, oracle);
    TypedParts(schema, "string");
    assert schema.Obj?;
    if v.Str? {
      CharsWithinBytes(v.text);
      CountsRead(schema, "minLength", "maxLength", |v.text|);
    }
    hide Typed, Accepts, Assertions, Admissible, Bound, Limit, LimitsRead, WellFormed, Within;
  }

  /** What one optional subschema says about a value. */
  ghost predicate ChildAccepts(schema: Json, key: string, document: Json, v: Json, fuel: nat,
                               oracle: (Json, Json) -> bool)
    requires fuel > 0
  {
    Get(schema, key).Some? ==> Accepts(Get(schema, key).value, document, v, fuel - 1, oracle)
  }

  lemma ChildStep(schema: Json, key: string, document: Json, depth: nat, v: Json, fuel: nat,
                  oracle: (Json, Json) -> bool, builds: Json -> bool)
    requires WellFormed(schema) && depth <= DEPTH_MAX && fuel > 0
    ensures
      match Get(schema, key)
      case None =>
        && CompileChild(schema, key, document, depth, builds).Some?
             && ChildAccepts(schema, key, document, v, fuel, oracle)
        && IsValid(CompileChild(schema, key, document, depth, builds).value, v, oracle)
      case Some(child) =>
        && CompileChild(schema, key, document, depth, builds) == Compile(child, document, depth + 1, builds)
        && ChildAccepts(schema, key, document, v, fuel, oracle) == Accepts(child, document, v, fuel - 1, oracle)
        && WellFormed(child)
  {
    hide Accepts, Compile, WellFormed;
    if Get(schema, key).Some? {
      ChildOf(schema, key);
    }
  }

  lemma ChildExact(schema: Json, key: string, document: Json, depth: nat, v: Json, fuel: nat,
                   oracle: (Json, Json) -> bool, builds: Json -> bool)
    requires WellFormed(schema) && (Get(schema, key).Some? ==> Admissible(Get(schema, key).value))
    requires Definitions(document)
    requires depth <= DEPTH_MAX && fuel > DEPTH_MAX - depth && Addressable(v)
    requires CompileChild(schema, key, document, depth, builds).Some?
    ensures IsValid(CompileChild(schema, key, document, depth, builds).value, v, oracle)
      == ChildAccepts(schema, key, document, v, fuel, oracle)
    decreases DEPTH_MAX + 1 - depth, 1
  {
    hide *;
    ChildStep(schema, key, document, depth, v, fuel, oracle, builds);
    if Get(schema, key).Some? {
      CompiledIsExact(Get(schema, key).value, document, depth + 1, v, fuel - 1, oracle, builds);
    }
  }

  lemma ArrayParts(schema: Json, document: Json, depth: nat, builds: Json -> bool)
    requires Typed(schema, "array") && depth <= DEPTH_MAX
    requires CompileType("array", schema, document, depth, builds).Some?
    ensures CompileChild(schema, "items", document, depth, builds).Some?
    ensures CompileType("array", schema, document, depth, builds).value
      == Array(Bound(schema, "minItems", 0), Bound(schema, "maxItems", WORD_MAX),
               CompileChild(schema, "items", document, depth, builds).value)
  {
    hide Typed, Compile, Bound;
  }

  /** The number lists the validator checks without a call per item are checked alike. */
  lemma ItemsValid(fewest: nat, most: nat, items: Validator, v: Json, oracle: (Json, Json) -> bool)
    ensures IsValid(Array(fewest, most, items), v, oracle) <==>
      v.Arr? && fewest <= |v.items| <= most && forall i :: 0 <= i < |v.items| ==> IsValid(items, v.items[i], oracle)
  {
  }

  /** The item keyword of Accepts. */
  ghost predicate ItemsAccepted(schema: Json, document: Json, v: Json, fuel: nat, oracle: (Json, Json) -> bool)
    requires v.Arr? && fuel > 0
  {
    forall i :: 0 <= i < |v.items| ==> ChildAccepts(schema, "items", document, v.items[i], fuel, oracle)
  }

  lemma ArrayAccepts(schema: Json, document: Json, v: Json, fuel: nat, oracle: (Json, Json) -> bool)
    requires Typed(schema, "array") && fuel > 0
    ensures
      Accepts(schema, document, v, fuel, oracle)
      <==>
      && v.Arr? && Within(schema, "minItems", "maxItems", |v.items|)
        && ItemsAccepted(schema, document, v, fuel, oracle)
  {
    TypedIsObject(schema, "array");
    hide *;
    TypedAssertions(schema, "array", v);
    AcceptsParts(schema, document, v, fuel, oracle);
    IsArray(v);
    if v.Arr? {
      ItemsSplit(schema, document, v, fuel, oracle);
    }
  }

  lemma TypedIsObject(schema: Json, name: string)
    requires Typed(schema, name)
    ensures schema.Obj?
  {
  }

  lemma IsArray(v: Json)
    ensures TypeIs("array", v) <==> v.Arr?
  {
  }

  lemma IsObject(v: Json)
    ensures TypeIs("object", v) <==> v.Obj?
  {
  }

  lemma ItemsSplit(schema: Json, document: Json, v: Json, fuel: nat, oracle: (Json, Json) -> bool)
    requires v.Arr? && fuel > 0
    ensures ItemsAccepted(schema, document, v, fuel, oracle) <==>
      (Get(schema, "items").Some? ==>
       forall i :: 0 <= i < |v.items| ==> Accepts(Get(schema, "items").value, document, v.items[i], fuel - 1, oracle))
  {
    hide Accepts, Get;
  }

  lemma ItemsExact(schema: Json, document: Json, depth: nat, v: Json, fuel: nat, oracle: (Json, Json) -> bool,
                   builds: Json -> bool)
    requires Typed(schema, "array") && Definitions(document) && depth <= DEPTH_MAX && fuel > DEPTH_MAX - depth
    requires Addressable(v) && v.Arr?
    requires CompileChild(schema, "items", document, depth, builds).Some?
    ensures
      var items := CompileChild(schema, "items", document, depth, builds).value;
      ItemsAccepted(schema, document, v, fuel, oracle) <==>
        forall i :: 0 <= i < |v.items| ==> IsValid(items, v.items[i], oracle)
    decreases DEPTH_MAX + 1 - depth, 2
  {
    TypedItems(schema);
    hide Typed, Accepts, Admissible, CompileChild, IsValid, WellFormed, Definitions, ChildAccepts, Get;
    var items := CompileChild(schema, "items", document, depth, builds).value;
    forall i | 0 <= i < |v.items|
      ensures IsValid(items, v.items[i], oracle) == ChildAccepts(schema, "items", document, v.items[i], fuel, oracle) {
      assert Addressable(v.items[i]);
      ChildExact(schema, "items", document, depth, v.items[i], fuel, oracle, builds);
    }
  }

  lemma TypedItems(schema: Json)
    requires Typed(schema, "array")
    ensures WellFormed(schema) && (Get(schema, "items").Some? ==> Admissible(Get(schema, "items").value))
  {
    TypedNotBeyond(schema, "array");
    hide LimitsRead, Beyond, Handled, Constraining;
  }

  lemma ArraySize(schema: Json, v: Json)
    requires Typed(schema, "array") && v.Arr? && Addressable(v)
    ensures Within(schema, "minItems", "maxItems", |v.items|) <==>
      Bound(schema, "minItems", 0) <= |v.items| <= Bound(schema, "maxItems", WORD_MAX)
  {
    TypedParts(schema, "array");
    hide Typed, Within, Bound, WellFormed;
    CountsRead(schema, "minItems", "maxItems", |v.items|);
  }

  lemma ArrayExact(schema: Json, document: Json, depth: nat, v: Json, fuel: nat, oracle: (Json, Json) -> bool,
                   builds: Json -> bool)
    requires Typed(schema, "array") && Definitions(document) && depth <= DEPTH_MAX && fuel > DEPTH_MAX - depth
    requires Addressable(v)
    requires CompileType("array", schema, document, depth, builds).Some?
    ensures Accepts(schema, document, v, fuel, oracle)
      == IsValid(CompileType("array", schema, document, depth, builds).value, v, oracle)
    decreases DEPTH_MAX + 1 - depth, 3
  {
    ArrayParts(schema, document, depth, builds);
    hide *;
    ArrayAccepts(schema, document, v, fuel, oracle);
    var items := CompileChild(schema, "items", document, depth, builds).value;
    ItemsValid(Bound(schema, "minItems", 0), Bound(schema, "maxItems", WORD_MAX), items, v, oracle);
    if v.Arr? {
      ArraySize(schema, v);
      ItemsExact(schema, document, depth, v, fuel, oracle, builds);
    }
  }

  // ----- objects -----

  lemma {:induction false} FieldsFacts(keys: seq<string>, properties: map<string, Json>, document: Json, depth: nat,
                                       k: string, builds: Json -> bool)
    requires depth <= DEPTH_MAX && CompileFields(keys, properties, document, depth, builds).Some?
    ensures
      var fields := CompileFields(keys, properties, document, depth, builds).value;
      && (k in fields <==> k in keys)
      && (k in keys ==> k in properties && Compile(properties[k], document, depth + 1, builds) == Some(fields[k]))
    decreases |keys|
  {
    if keys != [] {
      FieldsFacts(keys[1..], properties, document, depth, k, builds);
      assert keys == [keys[0]] + keys[1..];
    }
  }

  lemma PropertiesFacts(schema: Json)
    requires WellFormed(schema) && Admissible(schema) && (schema.Obj? ==> !Beyond(schema))
    ensures forall k :: k in Properties(schema) ==>
      Admissible(Properties(schema)[k]) && WellFormed(Properties(schema)[k])
    ensures forall k :: k in Properties(schema) <==> k in PropertyKeys(schema)
  {
    hide Beyond, LimitsRead;
    if Get(schema, "properties").Some? && Get(schema, "properties").value.Obj? {
      var properties := Get(schema, "properties").value;
      assert forall k :: k in properties.vals ==> Admissible(properties.vals[k]);
      ChildOf(schema, "properties");
      assert forall k :: k in properties.vals ==> WellFormed(properties.vals[k]);
    }
  }

  lemma ObjectParts(schema: Json, document: Json, depth: nat, builds: Json -> bool)
    requires Typed(schema, "object") && depth <= DEPTH_MAX
      && CompileType("object", schema, document, depth, builds).Some?
    ensures
      var fields := CompileFields(PropertyKeys(schema), Properties(schema), document, depth, builds);
      var additional := CompileChild(schema, "additionalProperties", document, depth, builds);
      && fields.Some? && additional.Some? && Required(schema).Some?
      && CompileType("object", schema, document, depth, builds).value
        == Object(Bound(schema, "minProperties", 0), Bound(schema, "maxProperties", WORD_MAX), fields.value,
                  Required(schema).value, additional.value)
    ensures WellFormed(schema) && Admissible(schema) && schema.Obj? && !Beyond(schema)
    ensures Get(schema, "additionalProperties").Some? ==> Admissible(Get(schema, "additionalProperties").value)
  {
    TypedNotBeyond(schema, "object");
    AdditionalAdmissible(schema);
    hide Compile, CompileFields, Required, RequiredKeys, Beyond, Admissible, WellFormed, Bound, Properties,
      PropertyKeys, CompileChild;
  }

  lemma AdditionalAdmissible(schema: Json)
    requires schema.Obj? && !Beyond(schema) && Admissible(schema)
    ensures Get(schema, "additionalProperties").Some? ==> Admissible(Get(schema, "additionalProperties").value)
  {
    hide Beyond, LimitsRead;
  }

  lemma RequiredIs(schema: Json, v: Json)
    requires v.Obj? && Required(schema).Some?
    ensures (forall i :: 0 <= i < |Required(schema).value| ==> Required(schema).value[i] in v.vals) <==>
      Supplied(schema, v)
  {
    if Get(schema, "required").Some? && Get(schema, "required").value.Arr? {
      var items := Get(schema, "required").value.items;
      RequiredKeysFacts(items);
      assert forall i :: 0 <= i < |items| ==> Required(schema).value[i] == items[i].text;
    }
  }

  lemma MemberValue(v: Json, k: string)
    requires v.Obj? && Addressable(v) && k in v.vals
    ensures Addressable(v.vals[k])
  {
  }

  lemma FieldExact(schema: Json, document: Json, depth: nat, v: Json, fuel: nat, oracle: (Json, Json) -> bool,
                   k: string, builds: Json -> bool)
    requires WellFormed(schema) && Admissible(schema) && (schema.Obj? ==> !Beyond(schema)) && Definitions(document)
    requires depth <= DEPTH_MAX
    requires fuel > DEPTH_MAX - depth && Addressable(v)
    requires CompileFields(PropertyKeys(schema), Properties(schema), document, depth, builds).Some?
    ensures
      var fields := CompileFields(PropertyKeys(schema), Properties(schema), document, depth, builds).value;
      && (k in fields <==> k in Properties(schema))
      && (k in fields ==>
            IsValid(fields[k], v, oracle)
              == Accepts(Properties(schema)[k], document, v, fuel - 1, oracle))
    decreases DEPTH_MAX + 1 - depth, 1
  {
    hide *;
    FieldsFacts(PropertyKeys(schema), Properties(schema), document, depth, k, builds);
    PropertiesFacts(schema);
    if k in Properties(schema) {
      CompiledIsExact(Properties(schema)[k], document, depth + 1, v, fuel - 1, oracle, builds);
    }
  }

  lemma ObjectValid(val: Validator, v: Json, oracle: (Json, Json) -> bool)
    requires val.Object? && v.Obj?
    ensures IsValid(val, v, oracle) <==>
      && val.fewest <= |v.keys| <= val.most
      && (forall i :: 0 <= i < |val.required| ==> val.required[i] in v.vals)
      && forall k :: k in v.vals ==>
           if k in val.fields then IsValid(val.fields[k], v.vals[k], oracle)
        else IsValid(val.additional, v.vals[k], oracle)
  {
  }

  /** The object keywords of Accepts, once an object has an admissible size and all its required members. */
  ghost predicate MembersAccepted(schema: Json, document: Json, v: Json, fuel: nat, oracle: (Json, Json) -> bool)
    requires v.Obj? && fuel > 0
  {
    forall k :: k in v.vals ==>
      if k in Properties(schema) then Accepts(Properties(schema)[k], document, v.vals[k], fuel - 1, oracle)
      else ChildAccepts(schema, "additionalProperties", document, v.vals[k], fuel, oracle)
  }

  lemma MembersSplit(schema: Json, document: Json, v: Json, fuel: nat, oracle: (Json, Json) -> bool)
    requires v.Obj? && fuel > 0
    ensures MembersAccepted(schema, document, v, fuel, oracle) <==>
      && (forall k :: k in v.vals && k in Properties(schema) ==>
          Accepts(Properties(schema)[k], document, v.vals[k], fuel - 1, oracle))
      && (Get(schema, "additionalProperties").Some? ==>
        forall k :: k in v.vals && k !in Properties(schema) ==>
          Accepts(Get(schema, "additionalProperties").value, document, v.vals[k], fuel - 1, oracle))
  {
    hide Accepts, Properties, Get;
  }

  lemma ObjectAccepts(schema: Json, document: Json, v: Json, fuel: nat, oracle: (Json, Json) -> bool)
    requires Typed(schema, "object") && v.Obj? && fuel > 0
    ensures Accepts(schema, document, v, fuel, oracle) <==>
      && Within(schema, "minProperties", "maxProperties", |v.keys|) && Supplied(schema, v)
      && MembersAccepted(schema, document, v, fuel, oracle)
  {
    TypedIsObject(schema, "object");
    hide *;
    TypedAssertions(schema, "object", v);
    AcceptsParts(schema, document, v, fuel, oracle);
    IsObject(v);
    MembersSplit(schema, document, v, fuel, oracle);
  }

  lemma MembersExact(schema: Json, document: Json, depth: nat, v: Json, fuel: nat, oracle: (Json, Json) -> bool,
                     builds: Json -> bool)
    requires Typed(schema, "object") && Definitions(document) && depth <= DEPTH_MAX && fuel > DEPTH_MAX - depth
    requires Addressable(v) && v.Obj?
    requires CompileType("object", schema, document, depth, builds).Some?
    ensures
      var val := CompileType("object", schema, document, depth, builds).value;
      && val.Object?
      && (MembersAccepted(schema, document, v, fuel, oracle) <==>
        forall k :: k in v.vals ==>
          if k in val.fields then IsValid(val.fields[k], v.vals[k], oracle)
          else IsValid(val.additional, v.vals[k], oracle))
    decreases DEPTH_MAX + 1 - depth, 2
  {
    hide Typed, Accepts, Admissible, Bound, CompileType, CompileChild, CompileFields, IsValid, WellFormed, Definitions,
      Addressable, ChildAccepts, Properties, Get;
    ObjectParts(schema, document, depth, builds);
    var val := CompileType("object", schema, document, depth, builds).value;
    forall k | k in v.vals
      ensures k in val.fields <==> k in Properties(schema)
      ensures k in val.fields ==>
        IsValid(val.fields[k], v.vals[k], oracle)
          == Accepts(Properties(schema)[k], document, v.vals[k], fuel - 1, oracle)
      ensures IsValid(val.additional, v.vals[k], oracle)
        == ChildAccepts(schema, "additionalProperties", document, v.vals[k], fuel, oracle)
    {
      MemberValue(v, k);
      FieldExact(schema, document, depth, v.vals[k], fuel, oracle, k, builds);
      ChildExact(schema, "additionalProperties", document, depth, v.vals[k], fuel, oracle, builds);
    }
  }

  lemma ObjectExact(schema: Json, document: Json, depth: nat, v: Json, fuel: nat, oracle: (Json, Json) -> bool,
                    builds: Json -> bool)
    requires Typed(schema, "object") && Definitions(document) && depth <= DEPTH_MAX && fuel > DEPTH_MAX - depth
    requires Addressable(v)
    requires CompileType("object", schema, document, depth, builds).Some?
    ensures Accepts(schema, document, v, fuel, oracle)
      == IsValid(CompileType("object", schema, document, depth, builds).value, v, oracle)
    decreases DEPTH_MAX + 1 - depth, 3
  {
    var val := CompileType("object", schema, document, depth, builds).value;
    ObjectParts(schema, document, depth, builds);
    hide *;
    if v.Obj? {
      ObjectAccepts(schema, document, v, fuel, oracle);
      ObjectSize(schema, v);
      RequiredIs(schema, v);
      ObjectValid(val, v, oracle);
      MembersExact(schema, document, depth, v, fuel, oracle, builds);
    } else {
      NotObject(schema, document, val, v, fuel, oracle);
    }
  }

  lemma ObjectSize(schema: Json, v: Json)
    requires Typed(schema, "object") && v.Obj? && Addressable(v)
    ensures
      Within(schema, "minProperties", "maxProperties", |v.keys|)
      <==> Bound(schema, "minProperties", 0) <= |v.keys| <= Bound(schema, "maxProperties", WORD_MAX)
  {
    TypedParts(schema, "object");
    hide Typed, Within, Bound, WellFormed;
    CountsRead(schema, "minProperties", "maxProperties", |v.keys|);
  }

  lemma NotObject(schema: Json, document: Json, val: Validator, v: Json, fuel: nat, oracle: (Json, Json) -> bool)
    requires Typed(schema, "object") && val.Object? && !v.Obj? && fuel > 0
    ensures !Accepts(schema, document, v, fuel, oracle) && !IsValid(val, v, oracle)
  {
    TypedAssertions(schema, "object", v);
    AcceptsParts(schema, document, v, fuel, oracle);
    assert schema.Obj?;
    hide Typed, Accepts, Assertions;
  }

  // ----- exactly one choice -----

  function CountValid(val: Validator, i: nat, v: Json, oracle: (Json, Json) -> bool): nat
    requires val.OneOf? && i <= |val.choices|
    decreases |val.choices| - i
  {
    if i == |val.choices| then 0
      else (if IsValid(val.choices[i], v, oracle) then 1 else 0) + CountValid(val, i + 1, v, oracle)
  }

  /** Stopping at the second match still tells one from none and from many. */
  lemma {:induction false} FirstTwoIsEnough(val: Validator, i: nat, v: Json, oracle: (Json, Json) -> bool)
    requires val.OneOf? && i <= |val.choices|
    ensures FirstTwo(val, i, v, oracle) == if CountValid(val, i, v, oracle) < 2
      then CountValid(val, i, v, oracle) else 2
    decreases |val.choices| - i
  {
    if i < |val.choices| {
      FirstTwoIsEnough(val, i + 1, v, oracle);
    }
  }

  lemma ChoiceOf(val: Validator, i: nat)
    requires val.OneOf? && i < |val.choices|
    ensures val.choices[i..][0] == val.choices[i]
    ensures val.choices[i..][1..] == val.choices[i + 1..]
  {
  }

  lemma {:induction false} ChoicesExact(schemas: seq<Json>, document: Json, depth: nat, val: Validator, i: nat,
                                        v: Json, fuel: nat, oracle: (Json, Json) -> bool, builds: Json -> bool)
    requires depth <= DEPTH_MAX && Definitions(document) && fuel > DEPTH_MAX - depth && Addressable(v)
    requires forall j :: 0 <= j < |schemas| ==> Admissible(schemas[j]) && WellFormed(schemas[j])
    requires val.OneOf? && i <= |val.choices|
    requires CompileAll(schemas, document, depth, builds) == Some(val.choices[i..])
    ensures CountAccepted(schemas, document, v, fuel, oracle) == CountValid(val, i, v, oracle)
    decreases DEPTH_MAX + 1 - depth, 1, |schemas|
  {
    hide CompileAll, Compile, Accepts, IsValid, Admissible, WellFormed, Definitions, Addressable;
    CompileAllStep(schemas, document, depth, builds);
    if schemas != [] {
      ChoiceOf(val, i);
      CompiledIsExact(schemas[0], document, depth + 1, v, fuel - 1, oracle, builds);
      ChoicesExact(schemas[1..], document, depth, val, i + 1, v, fuel, oracle, builds);
    }
  }

  lemma CompileAllStep(schemas: seq<Json>, document: Json, depth: nat, builds: Json -> bool)
    requires depth <= DEPTH_MAX && CompileAll(schemas, document, depth, builds).Some?
    ensures schemas == [] ==> CompileAll(schemas, document, depth, builds).value == []
    ensures schemas != [] ==>
      && CompileAll(schemas, document, depth, builds).value != []
      && Compile(schemas[0], document, depth + 1, builds) == Some(CompileAll(schemas, document, depth, builds).value[0])
      && CompileAll(schemas[1..], document, depth, builds)
           == Some(CompileAll(schemas, document, depth, builds).value[1..])
  {
  }

  // ----- the compiled validator is exact -----

  /** The three kinds of schema object that the compiler does not leave to the library. */
  lemma CompileShape(schema: Json, document: Json, depth: nat, builds: Json -> bool)
    requires depth <= DEPTH_MAX && schema.Obj? && Admissible(schema) && WellFormed(schema) && !Beyond(schema)
    requires Compile(schema, document, depth, builds).Some?
    ensures
      var keys, val := Constraining(schema.keys), Compile(schema, document, depth, builds).value;
      if keys == ["$ref"] then
        && Get(schema, "$ref").Some? && Resolve(document, Get(schema, "$ref").value).Some?
        && Compile(Resolve(document, Get(schema, "$ref").value).value, document, depth + 1, builds) == Some(val)
      else if keys == ["oneOf"] then Get(schema, "oneOf").Some? && val.OneOf?
        && CompileAll(Choices(schema), document, depth, builds) == Some(val.choices)
      else
        && Get(schema, "type").Some? && Get(schema, "type").value.Str? && Typed(schema, Get(schema, "type").value.text)
        && CompileType(Get(schema, "type").value.text, schema, document, depth, builds) == Some(val)
  {
    BeyondIsLeft(schema);
    hide Admissible, WellFormed, CompileType, CompileAll, Resolve, Beyond;
  }

  /** What is left to the library compiles to its validator, or not at all. */
  lemma LeftToLibrary(schema: Json, document: Json, depth: nat, builds: Json -> bool)
    requires depth <= DEPTH_MAX && schema.Obj? && WellFormed(schema) && Beyond(schema)
    ensures Compile(schema, document, depth, builds) == Fallback(schema, document, builds)
  {
    BeyondIsLeft(schema);
    hide WellFormed, CompileType, CompileAll, Resolve, Beyond, Fallback;
  }

  lemma LibraryVerdict(schema: Json, document: Json, v: Json, fuel: nat, oracle: (Json, Json) -> bool,
                       builds: Json -> bool)
    requires schema.Obj? && Beyond(schema) && fuel > 0 && Fallback(schema, document, builds).Some?
    ensures Accepts(schema, document, v, fuel, oracle)
      == IsValid(Fallback(schema, document, builds).value, v, oracle)
  {
    hide Beyond, Attached;
  }

  lemma DefinitionOf(document: Json, reference: Json)
    requires Definitions(document) && Resolve(document, reference).Some?
    ensures Admissible(Resolve(document, reference).value) && WellFormed(Resolve(document, reference).value)
  {
  }

  lemma ChoicesFacts(schema: Json)
    requires WellFormed(schema) && Admissible(schema) && (schema.Obj? ==> !Beyond(schema))
    ensures forall j :: 0 <= j < |Choices(schema)| ==> Admissible(Choices(schema)[j]) && WellFormed(Choices(schema)[j])
  {
    hide Beyond, LimitsRead;
    if Get(schema, "oneOf").Some? && Get(schema, "oneOf").value.Arr? {
      ChildOf(schema, "oneOf");
    }
  }

  lemma OneOfValid(val: Validator, v: Json, oracle: (Json, Json) -> bool)
    requires val.OneOf?
    ensures IsValid(val, v, oracle) == (CountValid(val, 0, v, oracle) == 1)
  {
    FirstTwoIsEnough(val, 0, v, oracle);
  }

  lemma ReferenceExact(schema: Json, document: Json, v: Json, fuel: nat, oracle: (Json, Json) -> bool)
    requires schema.Obj? && WellFormed(schema) && Constraining(schema.keys) == ["$ref"] && fuel > 0
    requires Get(schema, "$ref").Some? && Resolve(document, Get(schema, "$ref").value).Some?
    requires ReferenceRead(Get(schema, "$ref").value)
    ensures Accepts(schema, document, v, fuel, oracle)
      == Accepts(Resolve(document, Get(schema, "$ref").value).value, document, v, fuel - 1, oracle)
  {
    hide Accepts, Assertions, WellFormed, Resolve, Pointed, Constraining, ReferenceRead;
    ReferencePointed(document, Get(schema, "$ref").value);
    BareReference(schema, document, v, fuel, oracle);
  }

  lemma BareNotBeyond(schema: Json, key: string)
    requires schema.Obj? && WellFormed(schema) && Constraining(schema.keys) == [key] && key in {"$ref", "oneOf"}
    ensures !Beyond(schema)
  {
    BeyondIsLeft(schema);
    hide Beyond, WellFormed, Constraining;
  }

  /** A bare reference means what it points to. */
  lemma BareReference(schema: Json, document: Json, v: Json, fuel: nat, oracle: (Json, Json) -> bool)
    requires schema.Obj? && WellFormed(schema) && Constraining(schema.keys) == ["$ref"] && fuel > 0
    ensures Get(schema, "$ref").Some?
    ensures
      var target := Pointed(document, Get(schema, "$ref").value);
      Accepts(schema, document, v, fuel, oracle) <==>
        target.Some? && Accepts(target.value, document, v, fuel - 1, oracle)
  {
    hide Accepts, Assertions, WellFormed, Pointed, Constraining, Beyond;
    BareNotBeyond(schema, "$ref");
    AcceptsParts(schema, document, v, fuel, oracle);
    OnlyApplicator(schema, "$ref", v);
  }

  lemma ReferenceAdmissible(schema: Json)
    requires Admissible(schema) && Get(schema, "$ref").Some? && !Beyond(schema)
    ensures ReferenceRead(Get(schema, "$ref").value)
  {
    hide LimitsRead, ReferenceRead, Beyond;
  }

  lemma OneOfAccepts(schema: Json, document: Json, v: Json, fuel: nat, oracle: (Json, Json) -> bool)
    requires schema.Obj? && WellFormed(schema) && Constraining(schema.keys) == ["oneOf"] && fuel > 0
    ensures Accepts(schema, document, v, fuel, oracle)
      == (CountAccepted(Choices(schema), document, v, fuel, oracle) == 1)
  {
    BareNotBeyond(schema, "oneOf");
    AcceptsParts(schema, document, v, fuel, oracle);
    OnlyApplicator(schema, "oneOf", v);
    hide Beyond, Accepts, Assertions, WellFormed, Resolve, Constraining, CountAccepted, Choices;
  }

  lemma TypedExact(schema: Json, name: string, document: Json, depth: nat, v: Json, fuel: nat,
                   oracle: (Json, Json) -> bool, builds: Json -> bool)
    requires Typed(schema, name) && Definitions(document) && depth <= DEPTH_MAX && fuel > DEPTH_MAX - depth
    requires Addressable(v)
    requires CompileType(name, schema, document, depth, builds).Some?
    ensures Accepts(schema, document, v, fuel, oracle)
      == IsValid(CompileType(name, schema, document, depth, builds).value, v, oracle)
    decreases DEPTH_MAX + 1 - depth, 4
  {
    assert Handled(name).Some?;
    HandledKeys(name);
    hide *;
    if name == "array" {
      ArrayExact(schema, document, depth, v, fuel, oracle, builds);
    } else if name == "object" {
      ObjectExact(schema, document, depth, v, fuel, oracle, builds);
    } else if name == "string" {
      TextExact(schema, document, depth, v, fuel, oracle, builds);
    } else {
      ScalarExact(schema, name, document, depth, v, fuel, oracle, builds);
    }
  }

  lemma CompileHead(schema: Json, document: Json, depth: nat, v: Json, fuel: nat, oracle: (Json, Json) -> bool,
                    builds: Json -> bool)
    requires Compile(schema, document, depth, builds).Some? && fuel + depth > DEPTH_MAX
    ensures depth <= DEPTH_MAX && (schema.Bool? || schema.Obj?)
    ensures schema.Bool? ==>
      Accepts(schema, document, v, fuel, oracle) == IsValid(Compile(schema, document, depth, builds).value, v, oracle)
  {
  }

  /** A compiled schema accepts exactly the values its keywords accept, with the library's verdict, whatever
      it is, on every part that goes beyond the keywords. */
  lemma {:induction false} CompiledIsExact(schema: Json, document: Json, depth: nat, v: Json, fuel: nat,
                                           oracle: (Json, Json) -> bool, builds: Json -> bool)
    requires Compile(schema, document, depth, builds).Some?
    requires Admissible(schema) && WellFormed(schema) && Definitions(document) && Addressable(v)
    requires fuel + depth > DEPTH_MAX
    ensures Accepts(schema, document, v, fuel, oracle)
      == IsValid(Compile(schema, document, depth, builds).value, v, oracle)
    decreases (if depth > DEPTH_MAX then 0 else DEPTH_MAX + 1 - depth), 5
  {
    hide *;
    CompileHead(schema, document, depth, v, fuel, oracle, builds);
    if schema.Obj? && Beyond(schema) {
      LeftToLibrary(schema, document, depth, builds);
      LibraryVerdict(schema, document, v, fuel, oracle, builds);
    } else if schema.Obj? {
      CompileShape(schema, document, depth, builds);
      var keys, val := Constraining(schema.keys), Compile(schema, document, depth, builds).value;
      if keys == ["$ref"] {
        ReferenceAdmissible(schema);
        ReferenceExact(schema, document, v, fuel, oracle);
        DefinitionOf(document, Get(schema, "$ref").value);
        CompiledIsExact(Resolve(document, Get(schema, "$ref").value).value, document, depth + 1, v, fuel - 1, oracle,
                        builds);
      } else if keys == ["oneOf"] {
        OneOfAccepts(schema, document, v, fuel, oracle);
        ChoicesFacts(schema);
        assert val.choices[0..] == val.choices;
        ChoicesExact(Choices(schema), document, depth, val, 0, v, fuel, oracle, builds);
        OneOfValid(val, v, oracle);
      } else {
        TypedExact(schema, Get(schema, "type").value.text, document, depth, v, fuel, oracle, builds);
      }
    }
  }

  /** Without a fallback the library has no say. */
  lemma {:induction false} OwnVerdict(val: Validator, v: Json, oracle: (Json, Json) -> bool,
                                      other: (Json, Json) -> bool)
    requires NoFallback(val)
    ensures IsValid(val, v, oracle) == IsValid(val, v, other)
    decreases val, 1
  {
    match val
    case Array(_, _, items) =>
      if v.Arr? {
        forall i | 0 <= i < |v.items| ensures IsValid(items, v.items[i], oracle) == IsValid(items, v.items[i], other) {
          OwnVerdict(items, v.items[i], oracle, other);
        }
      }
    case Object(_, _, fields, _, additional) =>
      if v.Obj? {
        forall k | k in v.vals
          ensures k in fields ==> IsValid(fields[k], v.vals[k], oracle) == IsValid(fields[k], v.vals[k], other)
          ensures IsValid(additional, v.vals[k], oracle) == IsValid(additional, v.vals[k], other)
        {
          if k in fields {
            OwnVerdict(fields[k], v.vals[k], oracle, other);
          }
          OwnVerdict(additional, v.vals[k], oracle, other);
        }
      }
    case OneOf(_) => OwnChoices(val, 0, v, oracle, other);
    case _ =>
  }

  lemma {:induction false} OwnChoices(val: Validator, i: nat, v: Json, oracle: (Json, Json) -> bool,
                                      other: (Json, Json) -> bool)
    requires val.OneOf? && NoFallback(val) && i <= |val.choices|
    ensures FirstTwo(val, i, v, oracle) == FirstTwo(val, i, v, other)
    decreases val, 0, |val.choices| - i
  {
    if i < |val.choices| {
      OwnVerdict(val.choices[i], v, oracle, other);
      OwnChoices(val, i + 1, v, oracle, other);
    }
  }

  /** A schema that compiles without a fallback means what its keywords say, whatever the library. */
  lemma KeywordsAlone(schema: Json, document: Json, depth: nat, v: Json, fuel: nat, oracle: (Json, Json) -> bool,
                      other: (Json, Json) -> bool, builds: Json -> bool)
    requires Compile(schema, document, depth, builds).Some?
    requires NoFallback(Compile(schema, document, depth, builds).value)
    requires Admissible(schema) && WellFormed(schema) && Definitions(document) && Addressable(v)
    requires fuel + depth > DEPTH_MAX
    ensures Accepts(schema, document, v, fuel, oracle) == Accepts(schema, document, v, fuel, other)
  {
    hide *;
    CompiledIsExact(schema, document, depth, v, fuel, oracle, builds);
    CompiledIsExact(schema, document, depth, v, fuel, other, builds);
    OwnVerdict(Compile(schema, document, depth, builds).value, v, oracle, other);
  }

  // ----- limits written otherwise -----

  /** A schema of texts with a least length, written in some way. */
  function LongTexts(w: Written): Json {
    Obj(["type", "minLength"], map["type" := Str("string"), "minLength" := Num(w)])
  }

  /** Texts: the compiled schema agrees with the keywords on every text exactly when both
      lengths are read for what they say. */
  lemma TextSchemaExact(schema: Json, document: Json, depth: nat, fuel: nat, oracle: (Json, Json) -> bool,
                        builds: Json -> bool)
    requires TextSchema(schema) && depth <= DEPTH_MAX && fuel > 0
    ensures
      var val := CompileType("string", schema, document, depth, builds);
      && val.Some?
      && ((forall v :: Addressable(v) ==>
           (Accepts(schema, document, v, fuel, oracle) <==> IsValid(val.value, v, oracle)))
        <==> LeastRead(Limit(schema, "minLength")) && MostRead(Limit(schema, "maxLength")))
  {
    var val := CompileType("string", schema, document, depth, builds).value;
    if LeastRead(Limit(schema, "minLength")) && MostRead(Limit(schema, "maxLength")) {
      forall v | Addressable(v) ensures Accepts(schema, document, v, fuel, oracle) <==> IsValid(val, v, oracle) {
        TextVerdict(schema, document, depth, v, fuel, oracle, builds);
        if v.Str? {
          CharsWithinBytes(v.text);
          CountsRead(schema, "minLength", "maxLength", |v.text|);
        }
      }
    } else {
      var n := if LeastRead(Limit(schema, "minLength")) then WORD_MAX else 0;
      var v := Str(Letters(n));
      LettersFacts(n);
      assert Addressable(v);
      TextVerdict(schema, document, depth, v, fuel, oracle, builds);
      LengthMisread(schema, n);
    }
  }

  /** A schema of texts with nothing but lengths. */
  ghost predicate TextSchema(schema: Json) {
    && WellFormed(schema) && schema.Obj?
    && Get(schema, "type") == Some(Str("string"))
    && forall i :: 0 <= i < |Constraining(schema.keys)| ==> Constraining(schema.keys)[i] in TEXT_KEYS
  }

  lemma TextVerdict(schema: Json, document: Json, depth: nat, v: Json, fuel: nat, oracle: (Json, Json) -> bool,
                    builds: Json -> bool)
    requires TextSchema(schema) && depth <= DEPTH_MAX && fuel > 0
    ensures CompileType("string", schema, document, depth, builds).Some?
    ensures Accepts(schema, document, v, fuel, oracle) <==> v.Str? && Within(schema, "minLength", "maxLength", |v.text|)
    ensures
      IsValid(CompileType("string", schema, document, depth, builds).value, v, oracle)
      <==> v.Str? && Bound(schema, "minLength", 0) <= |v.text| <= Bound(schema, "maxLength", WORD_MAX)
  {
    TextMeant(schema, document, v, fuel, oracle);
    if v.Str? {
      CharsWithinBytes(v.text);
    }
    hide WellFormed, Constraining, Accepts, Within, Bound, Beyond, TextSchema;
  }

  lemma TextMeant(schema: Json, document: Json, v: Json, fuel: nat, oracle: (Json, Json) -> bool)
    requires TextSchema(schema) && fuel > 0
    ensures Accepts(schema, document, v, fuel, oracle) <==>
      v.Str? && Within(schema, "minLength", "maxLength", |v.text|)
  {
    OnlyTyped(schema, TEXT_KEYS, v);
    TypedNotBeyond(schema, "string");
    hide WellFormed, Constraining, Accepts, Within, Bound, Beyond;
    AcceptsParts(schema, document, v, fuel, oracle);
    assert Get(schema, "items").None? && Get(schema, "additionalProperties").None? && Get(schema, "properties").None?;
  }

  function Letters(n: nat): string {
    if n == 0 then "" else "a" + Letters(n - 1)
  }

  lemma {:induction false} LettersFacts(n: nat)
    ensures |Letters(n)| == n && |Utf8.Encode(Letters(n))| == n
  {
    if n > 0 {
      LettersFacts(n - 1);
    }
  }

  lemma LengthMisread(schema: Json, n: nat)
    requires WellFormed(schema)
    requires !LeastRead(Limit(schema, "minLength")) || !MostRead(Limit(schema, "maxLength"))
    requires n == if LeastRead(Limit(schema, "minLength")) then WORD_MAX else 0
    ensures !Within(schema, "minLength", "maxLength", n)
    ensures Bound(schema, "minLength", 0) <= n <= Bound(schema, "maxLength", WORD_MAX)
  {
    LimitInRange(schema, "minLength");
    UnitsOfOrder(0, 0);
    hide WellFormed, UnitsOf, Units;
  }

  /** A least length written as a decimal, or with more digits than a word holds, is taken for none:
      the compiled schema accepts the empty text, which the keyword refuses. */
  lemma DecimalLengthIgnored(bits: F64, document: Json, oracle: (Json, Json) -> bool, builds: Json -> bool)
    requires Finite(bits) && Units(bits) > 0
    ensures
      var schema := LongTexts(Decimal(bits));
      && WellFormed(schema) && !Admissible(schema)
      && Compile(schema, document, 0, builds) == Some(Text(0, WORD_MAX))
      && IsValid(Text(0, WORD_MAX), Str(""), oracle)
      && forall fuel :: !Accepts(schema, document, Str(""), fuel, oracle)
  {
    var schema := LongTexts(Decimal(bits));
    LongTextsShape(Decimal(bits));
    LongTextsCompiled(bits, document, builds);
    EmptyTextValid(oracle);
    hide *;
    forall fuel: nat ensures !Accepts(schema, document, Str(""), fuel, oracle) {
      if fuel == 0 {
        NoFuel(schema, document, Str(""), oracle);
      } else {
        TextVerdict(schema, document, 0, Str(""), fuel, oracle, builds);
        EmptyTextOutside(bits);
      }
    }
  }

  lemma LongTextsShape(w: Written)
    requires InRange(w)
    ensures
      var schema := LongTexts(w);
      && TextSchema(schema) && Constraining(schema.keys) == ["type", "minLength"]
      && Limit(schema, "minLength") == Some(w) && Limit(schema, "maxLength") == None
      && (Admissible(schema) ==> LeastRead(Some(w)))
  {
    var schema := LongTexts(w);
    assert schema.keys[1..] == ["minLength"] && schema.keys[1..][1..] == [];
    assert Constraining(schema.keys) == ["type", "minLength"];
  }

  lemma LongTextsCompiled(bits: F64, document: Json, builds: Json -> bool)
    requires Finite(bits)
    ensures Compile(LongTexts(Decimal(bits)), document, 0, builds) == Some(Text(0, WORD_MAX))
    ensures Units(bits) > 0 ==> !LeastRead(Some(Decimal(bits)))
  {
    LongTextsShape(Decimal(bits));
    var schema := LongTexts(Decimal(bits));
    assert schema.Obj? && Get(schema, "type") == Some(Str("string"));
    assert Bound(schema, "minLength", 0) == 0 && Bound(schema, "maxLength", WORD_MAX) == WORD_MAX;
    hide Constraining, WellFormed, TextSchema, Finite, Units, Limit, Bound;
  }

  lemma EmptyTextValid(oracle: (Json, Json) -> bool)
    ensures IsValid(Text(0, WORD_MAX), Str(""), oracle)
  {
  }

  lemma EmptyTextOutside(bits: F64)
    requires Finite(bits) && Units(bits) > 0
    ensures !Within(LongTexts(Decimal(bits)), "minLength", "maxLength", 0)
  {
    LongTextsShape(Decimal(bits));
    UnitsOfOrder(0, 0);
    hide Units, UnitsOf, Finite, WellFormed, TextSchema;
  }

  const TWO: F64 := 0x4000_0000_0000_0000
  const PAST_WORD: F64 := 0x43F0_0000_0000_0000

  /** Two such documents: a least length of 2.0, and one of 2^64. */
  lemma DecimalLengthExamples(document: Json, oracle: (Json, Json) -> bool, builds: Json -> bool)
    ensures Units(TWO) == UnitsOf(2) && Units(PAST_WORD) == UnitsOf(WORD_MAX + 1)
    ensures forall fuel, bits | bits == TWO || bits == PAST_WORD ::
      Compile(LongTexts(Decimal(bits)), document, 0, builds) == Some(Text(0, WORD_MAX))
        && !Accepts(LongTexts(Decimal(bits)), document, Str(""), fuel, oracle)
  {
    PowerUnits();
    UnitsOfOrder(0, 0);
    UnitsOfOrder(1, 2);
    UnitsOfOrder(1, 0);
    UnitsOfOrder(WORD_MAX + 1, 0);
    assert Finite(TWO) && Finite(PAST_WORD);
    hide Units, UnitsOf, Finite, Accepts, Compile;
    DecimalLengthIgnored(TWO, document, oracle, builds);
    DecimalLengthIgnored(PAST_WORD, document, oracle, builds);
  }

  lemma PowerUnits()
    ensures Units(TWO) == UnitsOf(2) && Units(PAST_WORD) == UnitsOf(WORD_MAX + 1)
  {
    PowerUnit(1024, 1, TWO);
    PowerUnit(1087, 64, PAST_WORD);
    ShiftPow2(0, 1);
    ShiftPow2(0, 64);
    Pow2Values();
  }

  /** The binary64 number whose exponent field says 2^k. */
  lemma PowerUnit(field: nat, k: nat, x: F64)
    requires field == k + 1023 && k <= 100 && x == field * BINARY64.hidden
    ensures Units(x) == UnitsOf(Shift(1, k))
  {
    Pow2Values();
    ShiftIsProduct(field, 52);
    JoinBits(field, 0, 52);
    ShiftPow2(0, 52);
    ShiftShift(1, 52, k + 1022);
    ShiftShift(1, k, 1074);
    ShiftPositive(1, k);
    hide Shift, Unshift, Low, Pow2;
  }

  // ----- numbers and names read otherwise -----

  /** A schema of integers up to 2^53, the first maximum that rounding lets a larger integer pass. */
  const LARGE_MAXIMUM: Json :=
    Obj(["type", "maximum"], map["type" := Str("integer"), "maximum" := Num(Unsigned(EXACT_MAX))])

  lemma LargeMaximumShape()
    ensures Constraining(LARGE_MAXIMUM.keys) == ["type", "maximum"]
    ensures Limit(LARGE_MAXIMUM, "maximum") == Some(Unsigned(EXACT_MAX)) && Limit(LARGE_MAXIMUM, "minimum") == None
    ensures Get(LARGE_MAXIMUM, "type") == Some(Str("integer")) && WellFormed(LARGE_MAXIMUM)
  {
    assert LARGE_MAXIMUM.keys[1..] == ["maximum"] && LARGE_MAXIMUM.keys[1..][1..] == [];
  }

  /** The compiled schema accepts 2^53 + 1, which the keyword refuses; the schema is not admissible. */
  lemma LargeMaximumIgnored(document: Json, fuel: nat, oracle: (Json, Json) -> bool, builds: Json -> bool)
    ensures !Admissible(LARGE_MAXIMUM)
    ensures
      var val, v := Compile(LARGE_MAXIMUM, document, 0, builds), Num(Unsigned(EXACT_MAX + 1));
      && val.Some? && NoFallback(val.value) && IsValid(val.value, v, oracle)
      && !Accepts(LARGE_MAXIMUM, document, v, fuel, oracle)
  {
    LargeMaximumCompiled(document, builds);
    LargeValueValid(oracle);
    LargeMaximumMeant(document, fuel, oracle);
    hide AtMost, AsNumber, IsValid, Compile, Accepts, Admissible, FromInt;
  }

  lemma LargeMaximumMeant(document: Json, fuel: nat, oracle: (Json, Json) -> bool)
    ensures !Admissible(LARGE_MAXIMUM)
    ensures !Accepts(LARGE_MAXIMUM, document, Num(Unsigned(EXACT_MAX + 1)), fuel, oracle)
  {
    hide Assertions, Accepts, Beyond, Admissible, Pointed, Get;
    var v := Num(Unsigned(EXACT_MAX + 1));
    LargeMaximumFacts();
    NoFuel(LARGE_MAXIMUM, document, v, oracle);
    if fuel > 0 {
      AcceptsParts(LARGE_MAXIMUM, document, v, fuel, oracle);
    }
  }

  lemma LargeMaximumFacts()
    ensures LARGE_MAXIMUM.Obj? && !Beyond(LARGE_MAXIMUM) && !Admissible(LARGE_MAXIMUM)
    ensures !Assertions(LARGE_MAXIMUM, Num(Unsigned(EXACT_MAX + 1)))
  {
    LargeMaximumShape();
    LargeMaximumMisread();
    hide AtMost, MaximumRead, Exactly, FromInt, AsNumber, MinimumRead, Constraining, Beyond, WellFormed;
    TypedNotBeyond(LARGE_MAXIMUM, "integer");
  }

  lemma LargeValueValid(oracle: (Json, Json) -> bool)
    ensures
      var val := Number(NEGATIVE_INFINITY, AsNumber(Unsigned(EXACT_MAX)), true);
      IsValid(val, Num(Unsigned(EXACT_MAX + 1)), oracle)
  {
    LargeMaximumMisread();
    FromIntWhole(EXACT_MAX + 1);
    FromIntFinite(EXACT_MAX + 1);
    FiniteWithinInfinities(FromInt(EXACT_MAX + 1));
    hide AtMost, MaximumRead, Exactly, FromInt, Finite, Integral;
  }

  lemma LargeMaximumCompiled(document: Json, builds: Json -> bool)
    ensures Compile(LARGE_MAXIMUM, document, 0, builds)
      == Some(Number(NEGATIVE_INFINITY, AsNumber(Unsigned(EXACT_MAX)), true))
  {
    LargeMaximumShape();
    hide Constraining, AsNumber, Limit;
  }

  const TEXTS: Json := Obj(["type"], map["type" := Str("string")])
  const NUMBERS: Json := Obj(["type"], map["type" := Str("number")])
  const REFERRING: Json := Obj(["$ref"], map["$ref" := Str(PREFIX + ESCAPED)])

  lemma OneTyped(name: string)
    requires name == "string" || name == "number"
    ensures
      var schema := Obj(["type"], map["type" := Str(name)]);
      && WellFormed(schema) && Constraining(schema.keys) == ["type"] && Get(schema, "type") == Some(Str(name))
      && forall key :: key != "type" ==> Get(schema, key) == None
  {
    assert ["type"][1..] == [];
  }

  lemma ReferringShape()
    ensures WellFormed(REFERRING) && Constraining(REFERRING.keys) == ["$ref"]
    ensures Get(REFERRING, "$ref") == Some(Str(PREFIX + ESCAPED))
  {
    assert ["$ref"][1..] == [];
  }

  /** The reference to a~1b is compiled to the schema of that name, and means the one named a/b: texts
      and numbers change places. */
  lemma EscapedReferenceMisread(text: string, number: Written, fuel: nat, oracle: (Json, Json) -> bool,
                                builds: Json -> bool)
    requires fuel > 1 && InRange(number)
    ensures
      var document := TwoDefinitions(TEXTS, NUMBERS);
      var val := Compile(REFERRING, document, 0, builds);
      && val.Some? && NoFallback(val.value)
      && Accepts(REFERRING, document, Str(text), fuel, oracle) && !IsValid(val.value, Str(text), oracle)
      && !Accepts(REFERRING, document, Num(number), fuel, oracle) && IsValid(val.value, Num(number), oracle)
  {
    var document := TwoDefinitions(TEXTS, NUMBERS);
    ReferringShape();
    OneTyped("string");
    OneTyped("number");
    EscapedNameMisread(TEXTS, NUMBERS);
    BareReference(REFERRING, document, Str(text), fuel, oracle);
    BareReference(REFERRING, document, Num(number), fuel, oracle);
    hide WellFormed, Constraining, TwoDefinitions, Pointed, Resolve, Get, InRange;
    TextsAccept(document, text, number, fuel - 1, oracle);
    NumbersCompiled(document, text, number, oracle, builds);
  }

  lemma TextsAccept(document: Json, text: string, number: Written, fuel: nat, oracle: (Json, Json) -> bool)
    requires fuel > 0
    ensures Accepts(TEXTS, document, Str(text), fuel, oracle) && !Accepts(TEXTS, document, Num(number), fuel, oracle)
  {
    OneTyped("string");
    AcceptsParts(TEXTS, document, Str(text), fuel, oracle);
    AcceptsParts(TEXTS, document, Num(number), fuel, oracle);
    hide Accepts, Constraining, Pointed;
  }

  lemma NumbersCompiled(document: Json, text: string, number: Written, oracle: (Json, Json) -> bool,
                        builds: Json -> bool)
    requires InRange(number)
    ensures Compile(NUMBERS, document, 1, builds) == Some(Number(NEGATIVE_INFINITY, POSITIVE_INFINITY, false))
    ensures
      var val := Number(NEGATIVE_INFINITY, POSITIVE_INFINITY, false);
      IsValid(val, Num(number), oracle) && !IsValid(val, Str(text), oracle)
  {
    OneTyped("number");
    AnyNumberValid(text, number, oracle);
    hide Constraining, AtMost, AsNumber, Get, Finite, IsValid;
  }

  lemma AnyNumberValid(text: string, number: Written, oracle: (Json, Json) -> bool)
    requires InRange(number)
    ensures
      var val := Number(NEGATIVE_INFINITY, POSITIVE_INFINITY, false);
      IsValid(val, Num(number), oracle) && !IsValid(val, Str(text), oracle)
  {
    NumberFinite(number);
    FiniteWithinInfinities(AsNumber(number));
    assert BINARY64.signBit + BINARY64.infinity == NEGATIVE_INFINITY;
    hide AtMost, AsNumber, Finite;
  }

  // ----- which schemas compile -----

  /** The schema a reference-only schema stands for. */
  function Next(schema: Json, document: Json): Option<Json> {
    if schema.Obj? && Constraining(schema.keys) == ["$ref"]
      && Get(schema, "$ref").Some? then Resolve(document, Get(schema, "$ref").value) else None
  }

  /** Compiling the schema needs the child compiled one level further down. */
  predicate Needs(schema: Json, document: Json, child: Json) {
    && schema.Obj?
    && var keys := Constraining(schema.keys);
    if keys == ["$ref"] then Next(schema, document) == Some(child)
    else if keys == ["oneOf"] then child in Choices(schema)
    else
      match Get(schema, "type")
      case Some(Str(name)) =>
        && Handled(name).Some? && (forall i :: 0 <= i < |keys| ==> keys[i] in Handled(name).value)
        && NeedsTyped(name, schema, child)
      case _ => false
  }

  predicate NeedsTyped(name: string, schema: Json, child: Json) {
    || (name == "array" && Get(schema, "items") == Some(child))
    || (name == "object" && Get(schema, "additionalProperties") == Some(child))
    || (name == "object" && exists i ::
          && 0 <= i < |PropertyKeys(schema)|
          && IsProperty(schema, PropertyKeys(schema)[i], child))
  }

  predicate IsProperty(schema: Json, key: string, child: Json) {
    key in Properties(schema) && Properties(schema)[key] == child
  }

  lemma {:induction false} ChoiceCompiles(schemas: seq<Json>, document: Json, depth: nat, child: Json,
                                          builds: Json -> bool)
    requires depth <= DEPTH_MAX && CompileAll(schemas, document, depth, builds).Some? && child in schemas
    ensures Compile(child, document, depth + 1, builds).Some?
    decreases |schemas|
  {
    CompileAllStep(schemas, document, depth, builds);
    if child != schemas[0] {
      assert schemas == [schemas[0]] + schemas[1..];
      hide CompileAll, Compile;
      ChoiceCompiles(schemas[1..], document, depth, child, builds);
    }
  }

  lemma TypedCompiles(name: string, schema: Json, document: Json, depth: nat, child: Json, builds: Json -> bool)
    requires depth <= DEPTH_MAX && CompileType(name, schema, document, depth, builds).Some?
      && NeedsTyped(name, schema, child)
    ensures Compile(child, document, depth + 1, builds).Some?
  {
    hide Compile, CompileFields;
    if name == "object" && Get(schema, "additionalProperties") != Some(child) {
      var i :| 0 <= i < |PropertyKeys(schema)| && IsProperty(schema, PropertyKeys(schema)[i], child);
      FieldsFacts(PropertyKeys(schema), Properties(schema), document, depth, PropertyKeys(schema)[i], builds);
    }
  }

  /** No schema compiles before the schemas it needs. */
  lemma NeededCompiles(schema: Json, document: Json, depth: nat, child: Json, builds: Json -> bool)
    requires Compile(schema, document, depth, builds).Some? && Needs(schema, document, child)
    ensures depth <= DEPTH_MAX && Compile(child, document, depth + 1, builds).Some?
  {
    hide NeedsTyped, CompileType, CompileAll;
    var keys := Constraining(schema.keys);
    if keys == ["$ref"] {
    } else if keys == ["oneOf"] {
      ChoiceCompiles(Choices(schema), document, depth, child, builds);
    } else {
      TypedCompiles(Get(schema, "type").value.text, schema, document, depth, child, builds);
    }
  }

  /** Schemas lie n levels deep below this one, through references, items, properties, additional
      properties and choices alike. */
  ghost predicate Descends(schema: Json, document: Json, n: nat)
    decreases n
  {
    n > 0 ==> exists child :: Needs(schema, document, child) && Descends(child, document, n - 1)
  }

  /** What lies deeper than the nesting limit is an error. */
  lemma {:induction false} TooDeepFails(schema: Json, document: Json, depth: nat, builds: Json -> bool)
    requires Descends(schema, document, if depth > DEPTH_MAX then 0 else DEPTH_MAX + 1 - depth)
    ensures Compile(schema, document, depth, builds).None?
    decreases (if depth > DEPTH_MAX then 0 else DEPTH_MAX + 1 - depth)
  {
    if depth <= DEPTH_MAX && Compile(schema, document, depth, builds).Some? {
      hide Needs, Compile;
      var child :| Needs(schema, document, child) && Descends(child, document, DEPTH_MAX - depth);
      TooDeepFails(child, document, depth + 1, builds);
      NeededCompiles(schema, document, depth, child, builds);
    }
  }

  /** Every schema of the family needs another of the family, or itself. */
  ghost predicate Endless(family: set<Json>, document: Json) {
    forall s :: s in family ==> NeedsOneOf(s, document, family)
  }

  ghost predicate NeedsOneOf(schema: Json, document: Json, family: set<Json>) {
    exists child :: child in family && Needs(schema, document, child)
  }

  lemma {:induction false} EndlessDescends(family: set<Json>, schema: Json, document: Json, n: nat)
    requires schema in family && Endless(family, document)
    ensures Descends(schema, document, n)
    decreases n
  {
    if n > 0 {
      assert NeedsOneOf(schema, document, family);
      hide Endless, Needs;
      var child :| child in family && Needs(schema, document, child);
      EndlessDescends(family, child, document, n - 1);
    }
  }

  /** A cycle of schemas that need one another never compiles, at any level. */
  lemma CycleFails(family: set<Json>, schema: Json, document: Json, depth: nat, builds: Json -> bool)
    requires schema in family && Endless(family, document)
    ensures Compile(schema, document, depth, builds).None?
  {
    EndlessDescends(family, schema, document, if depth > DEPTH_MAX then 0 else DEPTH_MAX + 1 - depth);
    TooDeepFails(schema, document, depth, builds);
  }

  /** What a bare reference points to. */
  ghost function Target(schema: Json, document: Json): Option<Json> {
    if schema.Obj? && Constraining(schema.keys) == ["$ref"]
      && Get(schema, "$ref").Some? then Pointed(document, Get(schema, "$ref").value)
    else None
  }

  /** Every schema of the family only points to another of the family. */
  ghost predicate Cyclic(family: set<Json>, document: Json) {
    forall s :: s in family ==> WellFormed(s) && Target(s, document).Some? && Target(s, document).value in family
  }

  lemma CycleStep(family: set<Json>, schema: Json, document: Json)
    requires schema in family && Cyclic(family, document)
    ensures WellFormed(schema) && Target(schema, document).Some? && Target(schema, document).value in family
  {
  }

  lemma TargetAccepts(schema: Json, document: Json, v: Json, fuel: nat, oracle: (Json, Json) -> bool)
    requires Target(schema, document).Some? && WellFormed(schema) && fuel > 0
    ensures Accepts(schema, document, v, fuel, oracle)
      == Accepts(Target(schema, document).value, document, v, fuel - 1, oracle)
  {
    hide Accepts, WellFormed, Constraining, Pointed;
    BareReference(schema, document, v, fuel, oracle);
  }

  lemma NoFuel(schema: Json, document: Json, v: Json, oracle: (Json, Json) -> bool)
    ensures !Accepts(schema, document, v, 0, oracle)
  {
  }

  /** A cycle of bare references accepts nothing, however deep it is followed. */
  lemma {:induction false} CycleAcceptsNothing(family: set<Json>, schema: Json, document: Json, v: Json, fuel: nat,
                                               oracle: (Json, Json) -> bool)
    requires schema in family && Cyclic(family, document)
    ensures !Accepts(schema, document, v, fuel, oracle)
    decreases fuel
  {
    hide *;
    NoFuel(schema, document, v, oracle);
    if fuel > 0 {
      CycleStep(family, schema, document);
      TargetAccepts(schema, document, v, fuel, oracle);
      CycleAcceptsNothing(family, Target(schema, document).value, document, v, fuel - 1, oracle);
    }
  }
}
