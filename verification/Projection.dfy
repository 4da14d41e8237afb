/** Projection plans: which part of a source value a tick keeps, computed afresh, from an owned
    source, or into a recycled target. */
module Projection {
  import opened Base
  import opened Values

  /** A compiled projection node; references are already resolved. */
  datatype Plan =
    | Scalar(nullable: bool)
    | Nullable(inner: Plan)
    | Object(fields: seq<Field>, required: seq<string>)
    | Map(limit: nat, values: Plan)
    | Array(limit: nat, takeFirst: bool, items: Plan)

  datatype Field = Field(output: string, source: string, node: Plan)

  predicate AcceptsNull(plan: Plan) {
    plan.Nullable? || (plan.Scalar? && plan.nullable)
  }

  /** Output keys are the keys of one JSON object; a source key feeds one field. */
  predicate Distinct(fields: seq<Field>) {
    forall i, j :: 0 <= i < j < |fields| ==>
      fields[i].output != fields[j].output && fields[i].source != fields[j].source
  }

  predicate Compiled(plan: Plan) {
    match plan
    case Scalar(_) => true
    case Nullable(inner) => Compiled(inner)
    case Object(fields, _) => Distinct(fields) && forall i :: 0 <= i < |fields| ==> Compiled(fields[i].node)
    case Map(_, values) => Compiled(values)
    case Array(_, _, items) => Compiled(items)
  }

  // ----- objects as lists of entries -----

  type Entries = seq<(string, Value)>

  function KeysOf(entries: Entries): (keys: seq<string>)
    ensures |keys| == |entries|
    ensures forall i :: 0 <= i < |keys| ==> keys[i] == entries[i].0
  {
    seq(|entries|, i requires 0 <= i < |entries| => entries[i].0)
  }

  function MapOf(entries: Entries): map<string, Value> {
    if entries == [] then map[]
      else MapOf(entries[..|entries| - 1])[entries[|entries| - 1].0 := entries[|entries| - 1].1]
  }

  function ObjectOf(entries: Entries): Value {
    Obj(KeysOf(entries), MapOf(entries))
  }

  lemma {:induction false} MapOfFacts(entries: Entries)
    requires NoDuplicates(KeysOf(entries))
    ensures forall k :: k in MapOf(entries) <==> k in KeysOf(entries)
    ensures forall i :: 0 <= i < |entries| ==>
      entries[i].0 in MapOf(entries) && MapOf(entries)[entries[i].0] == entries[i].1
  {
    if entries != [] {
      var n := |entries| - 1;
      var front := entries[..n];
      assert KeysOf(front) == KeysOf(entries)[..n];
      MapOfFacts(front);
      assert KeysOf(entries) == KeysOf(front) + [entries[n].0];
      forall i | 0 <= i < |entries|
        ensures entries[i].0 in MapOf(entries) && MapOf(entries)[entries[i].0] == entries[i].1 {
        if i < n {
          assert front[i] == entries[i];
          assert KeysOf(entries)[i] != KeysOf(entries)[n];
        }
      }
    }
  }

  // ----- the projection itself; none when the source is rejected -----

  predicate Present(source: Value, key: string) {
    source.Obj? && key in source.vals && !source.vals[key].Null?
  }

  /** The source value a field selects. */
  function Selected(field: Field, source: Value): Option<Value> {
    if source.Obj? && field.source in source.vals && (!source.vals[field.source].Null? || AcceptsNull(field.node)) then
      Some(source.vals[field.source])
    else None
  }

  predicate RequiredPresent(required: seq<string>, source: Value) {
    forall i :: 0 <= i < |required| ==> Present(source, required[i])
  }

  function Project(plan: Plan, source: Value): Option<Value>
    decreases plan, 1, 0
  {
    match plan
    case Scalar(nullable) => if source.Arr? || source.Obj? || (source.Null? && !nullable) then None else Some(source)
    case Nullable(inner) => if source.Null? then Some(Null) else Project(inner, source)
    case Object(_, required) =>
      if !source.Obj? || !RequiredPresent(required, source) then None
      else AsObject(ProjectFields(plan, source, 0))
    case Map(limit, _) =>
      if !source.Obj? || |source.keys| > limit then None else AsObject(ProjectEntries(plan, source, 0))
    case Array(limit, takeFirst, _) =>
      if !source.Arr? || (!takeFirst && |source.items| > limit) then None
      else
        match ProjectItems(plan, source, 0)
        case None => None
        case Some(items) => Some(Arr(items))
  }

  function AsObject(entries: Option<Entries>): Option<Value> {
    if entries.Some? then Some(ObjectOf(entries.value)) else None
  }

  /** The selected fields from i on, in the order of the plan. */
  function ProjectFields(plan: Plan, source: Value, i: nat): Option<Entries>
    requires plan.Object? && i <= |plan.fields|
    decreases plan, 0, |plan.fields| - i
  {
    if i == |plan.fields| then Some([])
    else
      var field := plan.fields[i];
      match Selected(field, source)
      case None => ProjectFields(plan, source, i + 1)
      case Some(value) =>
        var w := Project(field.node, value);
        var rest := ProjectFields(plan, source, i + 1);
        if w.Some? && rest.Some? then Some([(field.output, w.value)] + rest.value) else None
  }

  /** The members that are not null from i on, in the order of the source. */
  function ProjectEntries(plan: Plan, source: Value, i: nat): Option<Entries>
    requires plan.Map? && source.Obj? && i <= |source.keys|
    decreases plan, 0, |source.keys| - i
  {
    if i == |source.keys| then Some([])
    else if !Present(source, source.keys[i]) then ProjectEntries(plan, source, i + 1)
    else
      var w := Project(plan.values, source.vals[source.keys[i]]);
      var rest := ProjectEntries(plan, source, i + 1);
      if w.Some? && rest.Some? then Some([(source.keys[i], w.value)] + rest.value) else None
  }

  function Taken(plan: Plan, source: Value): nat
    requires plan.Array? && source.Arr?
  {
    if |source.items| < plan.limit then |source.items| else plan.limit
  }

  /** The items within the limit from i on. */
  function ProjectItems(plan: Plan, source: Value, i: nat): (items: Option<seq<Value>>)
    requires plan.Array? && source.Arr? && i <= Taken(plan, source)
    ensures items.Some? ==> |items.value| == Taken(plan, source) - i
    decreases plan, 0, Taken(plan, source) - i
  {
    if i == Taken(plan, source) then Some([])
    else
      var w := Project(plan.items, source.items[i]);
      var rest := ProjectItems(plan, source, i + 1);
      if w.Some? && rest.Some? then Some([w.value] + rest.value) else None
  }

  // ----- shapes of the recursion -----

  function Joined<T>(done: seq<T>, rest: Option<seq<T>>): Option<seq<T>> {
    if rest.Some? then Some(done + rest.value) else None
  }

  lemma JoinedNext<T>(done: seq<T>, x: T, rest: Option<seq<T>>)
    ensures Joined(done, Joined([x], rest)) == Joined(done + [x], rest)
  {
    if rest.Some? {
      assert done + ([x] + rest.value) == done + [x] + rest.value;
    }
  }

  lemma FieldsStep(plan: Plan, source: Value, i: nat)
    requires plan.Object? && i <= |plan.fields|
    ensures i == |plan.fields| ==> ProjectFields(plan, source, i) == Some([]) && SelectedKeys(plan, source, i) == []
    ensures i < |plan.fields| && Selected(plan.fields[i], source).None? ==>
      && ProjectFields(plan, source, i) == ProjectFields(plan, source, i + 1)
      && SelectedKeys(plan, source, i) == SelectedKeys(plan, source, i + 1)
    ensures i < |plan.fields| && Selected(plan.fields[i], source).Some? ==>
      var w := Project(plan.fields[i].node, Selected(plan.fields[i], source).value);
      && SelectedKeys(plan, source, i) == [plan.fields[i].output] + SelectedKeys(plan, source, i + 1)
      && ProjectFields(plan, source, i) ==
        if w.Some? then Joined([(plan.fields[i].output, w.value)], ProjectFields(plan, source, i + 1)) else None
  {
  }

  /** The output keys of the selected fields from i on. */
  function SelectedKeys(plan: Plan, source: Value, i: nat): seq<string>
    requires plan.Object? && i <= |plan.fields|
    decreases |plan.fields| - i
  {
    if i == |plan.fields| then []
    else
      (if Selected(plan.fields[i], source).Some? then [plan.fields[i].output] else [])
      + SelectedKeys(plan, source, i + 1)
  }

  lemma {:induction false} SelectedKeysFacts(plan: Plan, source: Value, i: nat)
    requires plan.Object? && Distinct(plan.fields) && i <= |plan.fields|
    ensures NoDuplicates(SelectedKeys(plan, source, i))
    ensures forall k :: k in SelectedKeys(plan, source, i) ==>
      exists j :: i <= j < |plan.fields| && plan.fields[j].output == k
    decreases |plan.fields| - i
  {
    if i < |plan.fields| {
      SelectedKeysFacts(plan, source, i + 1);
      assert plan.fields[i].output !in SelectedKeys(plan, source, i + 1);
    }
  }

  lemma {:induction false} ProjectedKeys(plan: Plan, source: Value, i: nat)
    requires plan.Object? && i <= |plan.fields| && ProjectFields(plan, source, i).Some?
    ensures KeysOf(ProjectFields(plan, source, i).value) == SelectedKeys(plan, source, i)
    decreases |plan.fields| - i
  {
    FieldsStep(plan, source, i);
    if i < |plan.fields| {
      ProjectedKeys(plan, source, i + 1);
    }
  }

  lemma EntriesStep(plan: Plan, source: Value, i: nat)
    requires plan.Map? && source.Obj? && i <= |source.keys|
    ensures i == |source.keys| ==> ProjectEntries(plan, source, i) == Some([]) && PresentKeys(source, i) == []
    ensures i < |source.keys| && !Present(source, source.keys[i]) ==>
      && ProjectEntries(plan, source, i) == ProjectEntries(plan, source, i + 1)
      && PresentKeys(source, i) == PresentKeys(source, i + 1)
    ensures i < |source.keys| && Present(source, source.keys[i]) ==>
      var w := Project(plan.values, source.vals[source.keys[i]]);
      && PresentKeys(source, i) == [source.keys[i]] + PresentKeys(source, i + 1)
      && ProjectEntries(plan, source, i) == if w.Some?
           then Joined([(source.keys[i], w.value)], ProjectEntries(plan, source, i + 1)) else None
  {
  }

  /** The keys from i on whose members are not null. */
  function PresentKeys(source: Value, i: nat): seq<string>
    requires source.Obj? && i <= |source.keys|
    decreases |source.keys| - i
  {
    if i == |source.keys| then []
    else (if Present(source, source.keys[i]) then [source.keys[i]] else []) + PresentKeys(source, i + 1)
  }

  lemma {:induction false} PresentKeysFacts(source: Value, i: nat)
    requires source.Obj? && NoDuplicates(source.keys) && i <= |source.keys|
    ensures NoDuplicates(PresentKeys(source, i))
    ensures forall k :: k in PresentKeys(source, i) ==> exists j :: i <= j < |source.keys| && source.keys[j] == k
    decreases |source.keys| - i
  {
    if i < |source.keys| {
      PresentKeysFacts(source, i + 1);
      assert source.keys[i] !in PresentKeys(source, i + 1);
    }
  }

  lemma {:induction false} ProjectedEntryKeys(plan: Plan, source: Value, i: nat)
    requires plan.Map? && source.Obj? && i <= |source.keys| && ProjectEntries(plan, source, i).Some?
    ensures KeysOf(ProjectEntries(plan, source, i).value) == PresentKeys(source, i)
    decreases |source.keys| - i
  {
    EntriesStep(plan, source, i);
    if i < |source.keys| {
      ProjectedEntryKeys(plan, source, i + 1);
    }
  }

  lemma ItemsStep(plan: Plan, source: Value, i: nat)
    requires plan.Array? && source.Arr? && i <= Taken(plan, source)
    ensures i == Taken(plan, source) ==> ProjectItems(plan, source, i) == Some([])
    ensures i < Taken(plan, source) ==>
      var w := Project(plan.items, source.items[i]);
      ProjectItems(plan, source, i) == if w.Some? then Joined([w.value], ProjectItems(plan, source, i + 1)) else None
  {
  }

  // ----- the projection of a JSON value is one -----

  lemma ObjectWellFormed(entries: Entries)
    requires NoDuplicates(KeysOf(entries)) && forall i :: 0 <= i < |entries| ==> WellFormed(entries[i].1)
    ensures WellFormed(ObjectOf(entries))
  {
    MapOfFacts(entries);
    forall k | k in MapOf(entries) ensures WellFormed(MapOf(entries)[k]) {
      var i :| 0 <= i < |entries| && KeysOf(entries)[i] == k;
    }
  }

  lemma {:induction false} ProjectWellFormed(plan: Plan, source: Value)
    requires Compiled(plan) && WellFormed(source)
    ensures Project(plan, source).Some? ==> WellFormed(Project(plan, source).value)
    decreases plan, 1, 0
  {
    match plan
    case Scalar(_) =>
    case Nullable(inner) => ProjectWellFormed(inner, source);
    case Object(_, _) =>
      if source.Obj? && ProjectFields(plan, source, 0).Some? {
        FieldsWellFormed(plan, source, 0);
        ProjectedKeys(plan, source, 0);
        SelectedKeysFacts(plan, source, 0);
        ObjectWellFormed(ProjectFields(plan, source, 0).value);
      }
    case Map(_, _) =>
      if source.Obj? && ProjectEntries(plan, source, 0).Some? {
        EntriesWellFormed(plan, source, 0);
        ProjectedEntryKeys(plan, source, 0);
        PresentKeysFacts(source, 0);
        ObjectWellFormed(ProjectEntries(plan, source, 0).value);
      }
    case Array(_, _, _) =>
      if source.Arr? && ProjectItems(plan, source, 0).Some? {
        ItemsWellFormed(plan, source, 0);
      }
  }

  lemma {:induction false} FieldsWellFormed(plan: Plan, source: Value, i: nat)
    requires Compiled(plan) && WellFormed(source) && plan.Object? && i <= |plan.fields|
    requires ProjectFields(plan, source, i).Some?
    ensures forall j :: 0 <= j < |ProjectFields(plan, source, i).value| ==>
      WellFormed(ProjectFields(plan, source, i).value[j].1)
    decreases plan, 0, |plan.fields| - i
  {
    FieldsStep(plan, source, i);
    if i < |plan.fields| {
      FieldsWellFormed(plan, source, i + 1);
      if Selected(plan.fields[i], source).Some? {
        ProjectWellFormed(plan.fields[i].node, Selected(plan.fields[i], source).value);
      }
    }
  }

  lemma {:induction false} EntriesWellFormed(plan: Plan, source: Value, i: nat)
    requires Compiled(plan) && WellFormed(source) && plan.Map? && source.Obj? && i <= |source.keys|
    requires ProjectEntries(plan, source, i).Some?
    ensures forall j :: 0 <= j < |ProjectEntries(plan, source, i).value| ==>
      WellFormed(ProjectEntries(plan, source, i).value[j].1)
    decreases plan, 0, |source.keys| - i
  {
    EntriesStep(plan, source, i);
    if i < |source.keys| {
      EntriesWellFormed(plan, source, i + 1);
      if Present(source, source.keys[i]) {
        ProjectWellFormed(plan.values, source.vals[source.keys[i]]);
      }
    }
  }

  lemma {:induction false} ItemsWellFormed(plan: Plan, source: Value, i: nat)
    requires Compiled(plan) && WellFormed(source) && plan.Array? && source.Arr? && i <= Taken(plan, source)
    requires ProjectItems(plan, source, i).Some?
    ensures forall j :: 0 <= j < |ProjectItems(plan, source, i).value| ==>
      WellFormed(ProjectItems(plan, source, i).value[j])
    decreases plan, 0, Taken(plan, source) - i
  {
    ItemsStep(plan, source, i);
    if i < Taken(plan, source) {
      ItemsWellFormed(plan, source, i + 1);
      ProjectWellFormed(plan.items, source.items[i]);
    }
  }
}
