/** What a projection keeps, said about the result: which members, which items, in which order, and
    when a source is rejected. */
module ProjectionMeaning {
  import opened Base
  import opened Values
  import opened Projection

  /** The field is filled: its source is there, and is not null unless the field's node takes null. */
  predicate Filled(field: Field, source: Value)
    requires source.Obj?
  {
    && field.source in source.vals
    && (source.vals[field.source] == Null ==> match field.node
                                              case Scalar(nullable) => nullable
                                              case Nullable(_) => true
                                              case _ => false)
  }

  /** The output keys of the filled fields, in the order of the plan. */
  function Outputs(fields: seq<Field>, source: Value): seq<string>
    requires source.Obj?
  {
    if fields == [] then []
    else
      var last := fields[|fields| - 1];
      Outputs(fields[..|fields| - 1], source) + (if Filled(last, source) then [last.output] else [])
  }

  /** The keys whose members are not null, in order. */
  function NotNull(keys: seq<string>, vals: map<string, Value>): seq<string> {
    if keys == [] then []
    else
      var last := keys[|keys| - 1];
      NotNull(keys[..|keys| - 1], vals) + (if last in vals && vals[last] != Null then [last] else [])
  }

  /** The value is what the plan keeps of the source. */
  ghost predicate Keeps(plan: Plan, source: Value, value: Value)
    decreases plan
  {
    match plan
    case Scalar(nullable) => value == source && !source.Arr? && !source.Obj? && (source == Null ==> nullable)
    case Nullable(inner) => if source == Null then value == Null else Keeps(inner, source, value)
    case Object(fields, required) =>
      && source.Obj? && value.Obj? && value.keys == Outputs(fields, source)
      && (forall k :: k in required ==> k in source.vals && source.vals[k] != Null)
      && (forall k :: k in value.vals ==> k in value.keys)
      && (forall i :: 0 <= i < |fields| && Filled(fields[i], source) ==>
            && fields[i].output in value.vals
            && Keeps(fields[i].node, source.vals[fields[i].source], value.vals[fields[i].output]))
    case Map(limit, values) =>
      && source.Obj? && |source.keys| <= limit && value.Obj? && value.keys == NotNull(source.keys, source.vals)
      && (forall k :: k in value.vals <==> k in value.keys)
      && (forall k :: k in value.vals ==> k in source.vals && Keeps(values, source.vals[k], value.vals[k]))
    case Array(limit, takeFirst, items) =>
      && source.Arr? && (takeFirst || |source.items| <= limit)
      && value.Arr? && |value.items| == (if |source.items| < limit then |source.items| else limit)
      && (forall i :: 0 <= i < |value.items| ==> Keeps(items, source.items[i], value.items[i]))
  }

  // ----- the keys kept -----

  lemma FilledIsSelected(field: Field, source: Value)
    requires source.Obj?
    ensures Filled(field, source) <==> Selected(field, source).Some?
    ensures Filled(field, source) ==> Selected(field, source) == Some(source.vals[field.source])
  {
  }

  lemma {:induction false} OutputsFront(fields: seq<Field>, source: Value)
    requires source.Obj? && fields != []
    ensures Outputs(fields, source)
      == (if Filled(fields[0], source) then [fields[0].output] else []) + Outputs(fields[1..], source)
    decreases |fields|
  {
    var n := |fields| - 1;
    hide Filled;
    if n > 0 {
      OutputsFront(fields[..n], source);
      assert fields[..n][1..] == fields[1..][..n - 1] && fields[1..][n - 1] == fields[n];
    }
  }

  lemma {:induction false} OutputsAre(plan: Plan, source: Value, i: nat)
    requires plan.Object? && source.Obj? && i <= |plan.fields|
    ensures SelectedKeys(plan, source, i) == Outputs(plan.fields[i..], source)
    decreases |plan.fields| - i
  {
    if i < |plan.fields| {
      OutputsAre(plan, source, i + 1);
      OutputsFront(plan.fields[i..], source);
      FilledIsSelected(plan.fields[i], source);
      assert plan.fields[i..][1..] == plan.fields[i + 1..];
    }
  }

  lemma {:induction false} NotNullFront(keys: seq<string>, vals: map<string, Value>)
    requires keys != []
    ensures NotNull(keys, vals)
      == (if keys[0] in vals && vals[keys[0]] != Null then [keys[0]] else []) + NotNull(keys[1..], vals)
    decreases |keys|
  {
    var n := |keys| - 1;
    if n > 0 {
      NotNullFront(keys[..n], vals);
      assert keys[..n][1..] == keys[1..][..n - 1] && keys[1..][n - 1] == keys[n];
    }
  }

  lemma {:induction false} NotNullAre(source: Value, i: nat)
    requires source.Obj? && i <= |source.keys|
    ensures PresentKeys(source, i) == NotNull(source.keys[i..], source.vals)
    decreases |source.keys| - i
  {
    if i < |source.keys| {
      NotNullAre(source, i + 1);
      NotNullFront(source.keys[i..], source.vals);
      assert source.keys[i..][1..] == source.keys[i + 1..];
    }
  }

  // ----- objects -----

  /** The entries are what the fields from i on keep. */
  ghost predicate FieldsKept(plan: Plan, source: Value, i: nat, entries: Entries)
    requires plan.Object? && source.Obj? && i <= |plan.fields|
  {
    && (forall j :: 0 <= j < |entries| ==> EntryKept(plan, source, i, entries[j]))
    && (forall j :: i <= j < |plan.fields| && Filled(plan.fields[j], source) ==>
          exists n :: 0 <= n < |entries| && entries[n].0 == plan.fields[j].output)
  }

  ghost predicate EntryKept(plan: Plan, source: Value, i: nat, entry: (string, Value))
    requires plan.Object? && source.Obj? && i <= |plan.fields|
  {
    exists j ::
      && i <= j < |plan.fields| && plan.fields[j].output == entry.0 && Filled(plan.fields[j], source)
      && Keeps(plan.fields[j].node, source.vals[plan.fields[j].source], entry.1)
  }

  lemma LaterKept(plan: Plan, source: Value, i: nat, entry: (string, Value))
    requires plan.Object? && source.Obj? && i < |plan.fields| && EntryKept(plan, source, i + 1, entry)
    ensures EntryKept(plan, source, i, entry)
  {
    hide Keeps, Filled;
  }

  lemma EntryAdded(plan: Plan, source: Value, i: nat, entry: (string, Value), rest: Entries)
    requires plan.Object? && source.Obj? && i < |plan.fields| && EntryKept(plan, source, i, entry)
    requires forall j :: 0 <= j < |rest| ==> EntryKept(plan, source, i + 1, rest[j])
    ensures forall j :: 0 <= j < |[entry] + rest| ==> EntryKept(plan, source, i, ([entry] + rest)[j])
  {
    hide EntryKept;
    forall j | 0 <= j < |[entry] + rest| ensures EntryKept(plan, source, i, ([entry] + rest)[j]) {
      if j > 0 {
        assert ([entry] + rest)[j] == rest[j - 1];
        LaterKept(plan, source, i, rest[j - 1]);
      }
    }
  }

  lemma FieldAdded(plan: Plan, source: Value, i: nat, entry: (string, Value), rest: Entries)
    requires plan.Object? && source.Obj? && i < |plan.fields| && FieldsKept(plan, source, i + 1, rest)
    requires Filled(plan.fields[i], source) && entry.0 == plan.fields[i].output
    requires Keeps(plan.fields[i].node, source.vals[plan.fields[i].source], entry.1)
    ensures FieldsKept(plan, source, i, [entry] + rest)
  {
    assert EntryKept(plan, source, i, entry);
    EntryAdded(plan, source, i, entry, rest);
    OutputAdded(plan, source, i, entry, rest);
    hide Keeps, Filled, EntryKept;
  }

  lemma OutputAdded(plan: Plan, source: Value, i: nat, entry: (string, Value), rest: Entries)
    requires plan.Object? && source.Obj? && i < |plan.fields| && entry.0 == plan.fields[i].output
    requires forall j :: i + 1 <= j < |plan.fields| && Filled(plan.fields[j], source) ==>
      exists n :: 0 <= n < |rest| && rest[n].0 == plan.fields[j].output
    ensures forall j :: i <= j < |plan.fields| && Filled(plan.fields[j], source) ==>
      exists n :: 0 <= n < |[entry] + rest| && ([entry] + rest)[n].0 == plan.fields[j].output
  {
    hide Filled;
    var entries := [entry] + rest;
    forall j | i <= j < |plan.fields| && Filled(plan.fields[j], source)
      ensures exists n :: 0 <= n < |entries| && entries[n].0 == plan.fields[j].output
    {
      if j == i {
        assert entries[0].0 == plan.fields[j].output;
      } else {
        var n :| 0 <= n < |rest| && rest[n].0 == plan.fields[j].output;
        assert entries[n + 1].0 == plan.fields[j].output;
      }
    }
  }

  lemma FieldSkipped(plan: Plan, source: Value, i: nat, rest: Entries)
    requires plan.Object? && source.Obj? && i < |plan.fields| && FieldsKept(plan, source, i + 1, rest)
    requires !Filled(plan.fields[i], source)
    ensures FieldsKept(plan, source, i, rest)
  {
    hide Keeps, Filled;
    forall j | 0 <= j < |rest| ensures EntryKept(plan, source, i, rest[j]) {
      LaterKept(plan, source, i, rest[j]);
    }
  }

  lemma NoFields(plan: Plan, source: Value)
    requires plan.Object? && source.Obj?
    ensures FieldsKept(plan, source, |plan.fields|, [])
  {
  }

  lemma FieldParts(plan: Plan, source: Value, i: nat)
    requires Compiled(plan) && plan.Object? && source.Obj? && WellFormed(source) && i < |plan.fields|
    ensures Compiled(plan.fields[i].node)
    ensures Filled(plan.fields[i], source) ==> WellFormed(source.vals[plan.fields[i].source])
  {
  }

  lemma {:induction false} FieldsKeep(plan: Plan, source: Value, i: nat)
    requires Compiled(plan) && plan.Object? && source.Obj? && WellFormed(source) && i <= |plan.fields|
    requires ProjectFields(plan, source, i).Some?
    ensures FieldsKept(plan, source, i, ProjectFields(plan, source, i).value)
    decreases plan, 0, |plan.fields| - i
  {
    FieldsStep(plan, source, i);
    NoFields(plan, source);
    if i < |plan.fields| {
      var field := plan.fields[i];
      FilledIsSelected(field, source);
      FieldParts(plan, source, i);
      hide Keeps, Filled, Selected, Project, ProjectFields, WellFormed, Compiled, FieldsKept;
      FieldsKeep(plan, source, i + 1);
      var rest := ProjectFields(plan, source, i + 1).value;
      if Filled(field, source) {
        ProjectKeeps(field.node, source.vals[field.source]);
        var w := Project(field.node, source.vals[field.source]).value;
        FieldAdded(plan, source, i, (field.output, w), rest);
      } else {
        FieldSkipped(plan, source, i, rest);
      }
    }
  }

  lemma ObjectParts(plan: Plan, source: Value)
    requires plan.Object? && Project(plan, source).Some?
    ensures source.Obj? && ProjectFields(plan, source, 0).Some?
    ensures Project(plan, source).value == ObjectOf(ProjectFields(plan, source, 0).value)
    ensures forall k :: k in plan.required ==> k in source.vals && source.vals[k] != Null
  {
    hide ProjectFields;
    assert forall k :: k in plan.required ==> Present(source, k);
  }

  /** Entries with distinct keys, as an object. */
  lemma ObjectFrom(plan: Plan, source: Value, entries: Entries)
    requires plan.Object? && source.Obj? && FieldsKept(plan, source, 0, entries) && Distinct(plan.fields)
    requires NoDuplicates(KeysOf(entries)) && KeysOf(entries) == Outputs(plan.fields, source)
    requires forall k :: k in plan.required ==> k in source.vals && source.vals[k] != Null
    ensures Keeps(plan, source, ObjectOf(entries))
  {
    MapOfFacts(entries);
    var value := ObjectOf(entries);
    hide WellFormed, Filled, Outputs, KeysOf, MapOf;
    forall i | 0 <= i < |plan.fields| && Filled(plan.fields[i], source)
      ensures plan.fields[i].output in value.vals
      ensures Keeps(plan.fields[i].node, source.vals[plan.fields[i].source], value.vals[plan.fields[i].output])
    {
      var n :| 0 <= n < |entries| && entries[n].0 == plan.fields[i].output;
      assert EntryKept(plan, source, 0, entries[n]);
      hide Keeps;
      var j :| 0 <= j < |plan.fields| && plan.fields[j].output == entries[n].0 && Filled(plan.fields[j], source)
        && Keeps(plan.fields[j].node, source.vals[plan.fields[j].source], entries[n].1);
      assert j == i;
    }
  }

  lemma {:induction false} ObjectKeeps(plan: Plan, source: Value)
    requires Compiled(plan) && plan.Object? && WellFormed(source) && Project(plan, source).Some?
    ensures Keeps(plan, source, Project(plan, source).value)
    decreases plan, 0, |plan.fields| + 1
  {
    ObjectParts(plan, source);
    FieldsKeep(plan, source, 0);
    OutputsAre(plan, source, 0);
    ProjectedKeys(plan, source, 0);
    assert Distinct(plan.fields);
    SelectedKeysFacts(plan, source, 0);
    assert plan.fields[0..] == plan.fields;
    hide *;
    ObjectFrom(plan, source, ProjectFields(plan, source, 0).value);
  }

  // ----- maps and lists -----

  lemma {:induction false} EntriesKeep(plan: Plan, source: Value, i: nat)
    requires Compiled(plan) && plan.Map? && source.Obj? && WellFormed(source) && i <= |source.keys|
    requires ProjectEntries(plan, source, i).Some?
    ensures
      var entries := ProjectEntries(plan, source, i).value;
      forall j :: 0 <= j < |entries| ==>
        entries[j].0 in source.vals && Keeps(plan.values, source.vals[entries[j].0], entries[j].1)
    decreases plan, 0, |source.keys| - i
  {
    if i < |source.keys| {
      var key := source.keys[i];
      EntriesStep(plan, source, i);
      EntriesKeep(plan, source, i + 1);
      if Present(source, key) {
        ProjectKeeps(plan.values, source.vals[key]);
      }
      hide Keeps, Project, ProjectEntries, WellFormed;
    }
  }

  lemma {:induction false} MapKeeps(plan: Plan, source: Value)
    requires Compiled(plan) && plan.Map? && WellFormed(source) && Project(plan, source).Some?
    ensures Keeps(plan, source, Project(plan, source).value)
    decreases plan, 0, if source.Obj? then |source.keys| + 1 else 0
  {
    var entries, value := ProjectEntries(plan, source, 0).value, Project(plan, source).value;
    EntriesKeep(plan, source, 0);
    NotNullAre(source, 0);
    ProjectedEntryKeys(plan, source, 0);
    PresentKeysFacts(source, 0);
    MapOfFacts(entries);
    assert source.keys[0..] == source.keys;
    hide Project, ProjectEntries, WellFormed, NotNull, PresentKeys;
    forall k | k in value.vals ensures k in source.vals && Keeps(plan.values, source.vals[k], value.vals[k]) {
      var j :| 0 <= j < |entries| && KeysOf(entries)[j] == k;
    }
  }

  lemma {:induction false} ItemsKeep(plan: Plan, source: Value, i: nat)
    requires Compiled(plan) && plan.Array? && source.Arr? && WellFormed(source) && i <= Taken(plan, source)
    requires ProjectItems(plan, source, i).Some?
    ensures
      var items := ProjectItems(plan, source, i).value;
      forall j :: 0 <= j < |items| ==> Keeps(plan.items, source.items[i + j], items[j])
    decreases plan, 0, Taken(plan, source) - i
  {
    if i < Taken(plan, source) {
      ItemsStep(plan, source, i);
      ItemsKeep(plan, source, i + 1);
      ProjectKeeps(plan.items, source.items[i]);
      var items, rest := ProjectItems(plan, source, i).value, ProjectItems(plan, source, i + 1).value;
      hide Keeps, Project, ProjectItems, WellFormed;
      forall j | 0 <= j < |items| ensures Keeps(plan.items, source.items[i + j], items[j]) {
        if j > 0 {
          assert items[j] == rest[j - 1] && source.items[i + 1 + (j - 1)] == source.items[i + j];
        }
      }
    }
  }

  /** What is projected is what the plan keeps. */
  lemma {:induction false} ProjectKeeps(plan: Plan, source: Value)
    requires Compiled(plan) && WellFormed(source)
    ensures Project(plan, source).Some? ==> Keeps(plan, source, Project(plan, source).value)
    decreases plan, 1, 0
  {
    if Project(plan, source).Some? {
      match plan
      case Scalar(_) =>
      case Nullable(inner) => ProjectKeeps(inner, source);
      case Object(_, _) => ObjectKeeps(plan, source);
      case Map(_, _) => MapKeeps(plan, source);
      case Array(_, _, _) => ItemsKeep(plan, source, 0);
    }
  }

  // ----- nothing is rejected that the plan could keep -----

  lemma {:induction false} KeptFields(plan: Plan, source: Value, value: Value, i: nat)
    requires Compiled(plan) && plan.Object? && source.Obj? && WellFormed(source) && i <= |plan.fields|
    requires Keeps(plan, source, value)
    ensures ProjectFields(plan, source, i).Some?
    decreases plan, 0, |plan.fields| - i
  {
    FieldsStep(plan, source, i);
    if i < |plan.fields| {
      var field := plan.fields[i];
      KeptField(plan, source, value, i);
      FilledIsSelected(field, source);
      FieldParts(plan, source, i);
      hide Keeps, Filled, Selected, Project, ProjectFields, WellFormed, Compiled;
      KeptFields(plan, source, value, i + 1);
      if Filled(field, source) {
        KeptProjects(field.node, source.vals[field.source], value.vals[field.output]);
      }
    }
  }

  lemma KeptField(plan: Plan, source: Value, value: Value, i: nat)
    requires plan.Object? && Keeps(plan, source, value) && i < |plan.fields|
    ensures source.Obj? && value.Obj?
    ensures Filled(plan.fields[i], source) ==>
      && plan.fields[i].output in value.vals
      && Keeps(plan.fields[i].node, source.vals[plan.fields[i].source], value.vals[plan.fields[i].output])
  {
    hide Filled, Outputs;
  }

  lemma {:induction false} KeptEntries(plan: Plan, source: Value, value: Value, i: nat)
    requires Compiled(plan) && plan.Map? && source.Obj? && WellFormed(source) && i <= |source.keys|
    requires Keeps(plan, source, value)
    ensures ProjectEntries(plan, source, i).Some?
    decreases plan, 0, |source.keys| - i
  {
    EntriesStep(plan, source, i);
    if i < |source.keys| {
      KeptEntries(plan, source, value, i + 1);
      var key := source.keys[i];
      if Present(source, key) {
        NotNullHas(source.keys, source.vals, i);
        assert key in value.vals && WellFormed(source.vals[key]);
        KeptProjects(plan.values, source.vals[key], value.vals[key]);
      }
      hide Keeps, Project, ProjectEntries, WellFormed;
    }
  }

  lemma {:induction false} NotNullHas(keys: seq<string>, vals: map<string, Value>, i: nat)
    requires i < |keys| && keys[i] in vals && vals[keys[i]] != Null
    ensures keys[i] in NotNull(keys, vals)
    decreases |keys|
  {
    if i < |keys| - 1 {
      NotNullHas(keys[..|keys| - 1], vals, i);
    }
  }

  lemma {:induction false} KeptItems(plan: Plan, source: Value, value: Value, i: nat)
    requires Compiled(plan) && plan.Array? && source.Arr? && WellFormed(source) && i <= Taken(plan, source)
    requires Keeps(plan, source, value)
    ensures ProjectItems(plan, source, i).Some?
    decreases plan, 0, Taken(plan, source) - i
  {
    ItemsStep(plan, source, i);
    if i < Taken(plan, source) {
      KeptItems(plan, source, value, i + 1);
      KeptProjects(plan.items, source.items[i], value.items[i]);
    }
  }

  lemma KeptRequired(plan: Plan, source: Value, value: Value)
    requires plan.Object? && Keeps(plan, source, value)
    ensures source.Obj? && RequiredPresent(plan.required, source)
  {
    hide Filled, Outputs;
    forall i | 0 <= i < |plan.required| ensures Present(source, plan.required[i]) {
      assert plan.required[i] in plan.required;
    }
  }

  lemma {:induction false} KeptProjects(plan: Plan, source: Value, value: Value)
    requires Compiled(plan) && WellFormed(source) && Keeps(plan, source, value)
    ensures Project(plan, source).Some?
    decreases plan, 1, 0
  {
    match plan
    case Scalar(_) =>
    case Nullable(inner) =>
      if source != Null {
        KeptProjects(inner, source, value);
      }
    case Object(_, _) =>
      KeptRequired(plan, source, value);
      KeptFields(plan, source, value, 0);
      hide Keeps, ProjectFields, RequiredPresent, WellFormed, Compiled;
    case Map(_, _) =>
      KeptEntries(plan, source, value, 0);
    case Array(_, _, _) =>
      KeptItems(plan, source, value, 0);
  }

  /** The projection gives what the plan keeps, and rejects a source exactly when it can keep nothing. */
  lemma ProjectMeans(plan: Plan, source: Value)
    requires Compiled(plan) && WellFormed(source)
    ensures Project(plan, source).Some? ==> Keeps(plan, source, Project(plan, source).value)
    ensures Project(plan, source).None? <==> forall value :: !Keeps(plan, source, value)
  {
    ProjectKeeps(plan, source);
    if value :| Keeps(plan, source, value) {
      KeptProjects(plan, source, value);
    }
    hide Keeps, Project, WellFormed, Compiled;
  }
}
