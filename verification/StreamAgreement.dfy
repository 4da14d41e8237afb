/** The streaming projection looks for required keys in its output, the recursive one in the
    source. They agree on every plan whose required keys name, as outputs, fields that may not be
    null, and whose sources are again exactly the required keys. */
module StreamAgreement {
  import opened Base
  import opened Values
  import opened Projection
  import opened EventBuilder
  import R = ProjectionReuse
  import D = Decode
  import O = OrderedDelta

  /** The required keys are the outputs of fields that may not be null, and the sources of
      those fields are the required keys. */
  predicate RequiredMatch(fields: seq<Field>, required: seq<string>) {
    && (forall i :: 0 <= i < |required| ==> OutputRequired(fields, required, required[i]))
    && (forall i :: 0 <= i < |required| ==> SourceRequired(fields, required, required[i]))
  }

  predicate OutputRequired(fields: seq<Field>, required: seq<string>, key: string) {
    exists j :: 0 <= j < |fields| && fields[j].output == key && fields[j].source in required
      && !AcceptsNull(fields[j].node)
  }

  predicate SourceRequired(fields: seq<Field>, required: seq<string>, key: string) {
    exists j :: 0 <= j < |fields| && fields[j].source == key && fields[j].output in required
  }

  predicate Faithful(plan: Plan) {
    match plan
    case Scalar(_) => true
    case Nullable(inner) => Faithful(inner)
    case Object(fields, required) => RequiredMatch(fields, required) && forall i :: 0 <= i < |fields| ==>
      Faithful(fields[i].node)
    case Map(_, values) => Faithful(values)
    case Array(_, _, items) => Faithful(items)
  }

  predicate FaithfulFields(plan: Plan)
    requires plan.Object?
  {
    forall i :: 0 <= i < |plan.fields| ==> Faithful(plan.fields[i].node)
  }

  lemma {:induction false} ThroughNullable(plan: Plan, v: Value)
    requires !v.Null?
    ensures Project(plan, v) == Project(NonNull(plan), v)
    ensures Compiled(plan) ==> Compiled(NonNull(plan))
    ensures Faithful(plan) ==> Faithful(NonNull(plan))
  {
    if plan.Nullable? {
      ThroughNullable(plan.inner, v);
    }
  }

  // ----- objects -----

  /** The container holds the projections of the fields selected by the first n members. */
  ghost predicate Collected(plan: Plan, v: Value, n: nat, f: Frame)
    requires plan.Object? && v.Obj? && n <= |v.keys|
  {
    && f.node == plan
    && f.container.Obj?
    && (forall j :: 0 <= j < |plan.fields| ==> FieldCollected(plan.fields[j], v, n, f.container))
    && forall key :: key in f.container.vals ==> IsOutput(plan.fields, key)
  }

  predicate IsOutput(fields: seq<Field>, key: string) {
    exists j :: 0 <= j < |fields| && fields[j].output == key
  }

  ghost predicate FieldCollected(field: Field, v: Value, n: nat, container: Value)
    requires v.Obj? && n <= |v.keys| && container.Obj?
  {
    var selected := R.SelectedBy(field, v, n);
    if selected.None? then field.output !in container.vals
    else field.output in container.vals && Project(field.node, selected.value) == Some(container.vals[field.output])
  }

  /** No field still to be selected has a value its node rejects. */
  ghost predicate RestProjects(plan: Plan, v: Value, n: nat)
    requires plan.Object? && v.Obj? && n <= |v.keys|
  {
    forall j :: 0 <= j < |plan.fields| ==>
      plan.fields[j].source in v.keys[n..] && Selected(plan.fields[j], v).Some? ==>
        Project(plan.fields[j].node, Selected(plan.fields[j], v).value).Some?
  }

  lemma RestNext(plan: Plan, v: Value, n: nat)
    requires Compiled(plan) && plan.Object? && WellFormed(v) && v.Obj? && n < |v.keys|
    ensures
      var j := R.FieldOf(plan.fields, v.keys[n]);
      RestProjects(plan, v, n) <==>
        && RestProjects(plan, v, n + 1)
        && (j < |plan.fields| && Selected(plan.fields[j], v).Some? ==>
          Project(plan.fields[j].node, Selected(plan.fields[j], v).value).Some?)
  {
    hide Project, WellFormed, Compiled, Selected;
    DistinctFields(plan);
    var key := v.keys[n];
    assert v.keys[n..] == [key] + v.keys[n + 1..];
    forall j | 0 <= j < |plan.fields| && plan.fields[j].source == key ensures R.FieldOf(plan.fields, key) == j {
      R.FieldOfIs(plan.fields, j);
    }
  }

  lemma DistinctFields(plan: Plan)
    requires Compiled(plan) && plan.Object?
    ensures Distinct(plan.fields)
  {
  }

  lemma CollectIgnored(plan: Plan, v: Value, n: nat, f: Frame)
    requires Compiled(plan) && plan.Object? && WellFormed(v) && v.Obj? && n < |v.keys| && Collected(plan, v, n, f)
    requires
      var j := R.FieldOf(plan.fields, v.keys[n]);
      j < |plan.fields| ==> Selected(plan.fields[j], v).None?
    ensures Collected(plan, v, n + 1, f)
  {
    DistinctFields(plan);
    hide Project, WellFormed, Compiled, Selected, R.SelectedBy;
    var i := R.FieldOf(plan.fields, v.keys[n]);
    forall j | 0 <= j < |plan.fields| ensures FieldCollected(plan.fields[j], v, n + 1, f.container) {
      assert FieldCollected(plan.fields[j], v, n, f.container);
      R.SelectedByNext(plan.fields, v, n, j);
      if j == i {
        R.NotSelectedYet(plan.fields[j], v, n);
      }
    }
  }

  lemma CollectTaken(plan: Plan, v: Value, n: nat, f: Frame, w: Value)
    requires Compiled(plan) && plan.Object? && WellFormed(v) && v.Obj? && n < |v.keys| && Collected(plan, v, n, f)
    requires
      var j := R.FieldOf(plan.fields, v.keys[n]);
      && j < |plan.fields| && Selected(plan.fields[j], v).Some?
      && Project(plan.fields[j].node, Selected(plan.fields[j], v).value) == Some(w)
    ensures
      var j := R.FieldOf(plan.fields, v.keys[n]);
      Collected(plan, v, n + 1, f.(container := D.Insert(f.container, plan.fields[j].output, w)))
  {
    DistinctFields(plan);
    hide Project, WellFormed, Compiled, Selected, R.SelectedBy;
    var i := R.FieldOf(plan.fields, v.keys[n]);
    var inserted := D.Insert(f.container, plan.fields[i].output, w);
    forall j | 0 <= j < |plan.fields| ensures FieldCollected(plan.fields[j], v, n + 1, inserted) {
      assert FieldCollected(plan.fields[j], v, n, f.container);
      R.SelectedByNext(plan.fields, v, n, j);
      if j != i {
        assert plan.fields[j].output != plan.fields[i].output;
      }
    }
    assert IsOutput(plan.fields, plan.fields[i].output);
  }

  /** One member of an object, by the field its key feeds. */
  lemma ObjectMember(f: Frame, key: string, item: Value)
    requires WellFormed(item) && f.node.Object? && f.container.Obj?
    ensures
      var fields := f.node.fields;
      var j := R.FieldOf(fields, key);
      FrameStep(f.(pending := Some(key)), item) ==
        if j == |fields| then Some(f.(pending := None))
        else if item.Null? && !AcceptsNull(fields[j].node) then Some(f.(pending := None))
        else
          match StreamProject(fields[j].node, item)
          case None => None
          case Some(w) => Some(f.(pending := None, container := D.Insert(f.container, fields[j].output, w)))
  {
    hide StreamProject, WellFormed, AcceptsNull;
  }

  lemma PendingIrrelevant(plan: Plan, v: Value, n: nat, f: Frame)
    requires plan.Object? && v.Obj? && n <= |v.keys|
    ensures Collected(plan, v, n, f) <==> Collected(plan, v, n, f.(pending := None))
  {
  }

  lemma {:induction false} FoldObject(plan: Plan, v: Value, n: nat, f: Frame)
    requires Compiled(plan) && plan.Object? && FaithfulFields(plan) && WellFormed(v) && v.Obj? && n <= |v.keys|
    requires Collected(plan, v, n, f)
    ensures FoldMembers(f, v, n).Some? <==> RestProjects(plan, v, n)
    ensures FoldMembers(f, v, n).Some? ==> Collected(plan, v, |v.keys|, FoldMembers(f, v, n).value)
    decreases v, 0, |v.keys| - n
  {
    FoldMembersStep(f, v, n);
    CollectedParts(plan, v, n, f);
    hide *;
    if n == |v.keys| {
      NothingLeft(plan, v);
    } else {
      var key := v.keys[n];
      var item := v.vals[key];
      var j := R.FieldOf(plan.fields, key);
      ObjectMember(f, key, item);
      RestNext(plan, v, n);
      PendingIrrelevant(plan, v, n, f);
      var f1 := f.(pending := None);
      if j == |plan.fields| {
        CollectIgnored(plan, v, n, f1);
        FoldObject(plan, v, n + 1, f1);
      } else {
        SelectedParts(plan.fields[j], v);
        if item.Null? && !AcceptsNull(plan.fields[j].node) {
          CollectIgnored(plan, v, n, f1);
          FoldObject(plan, v, n + 1, f1);
        } else {
          ChildPlan(plan, j);
          StreamIsTree(plan.fields[j].node, item);
          var w := Project(plan.fields[j].node, item);
          if w.Some? {
            CollectTaken(plan, v, n, f1, w.value);
            FoldObject(plan, v, n + 1, f1.(container := D.Insert(f1.container, plan.fields[j].output, w.value)));
          }
        }
      }
    }
  }

  lemma CollectedParts(plan: Plan, v: Value, n: nat, f: Frame)
    requires plan.Object? && v.Obj? && n <= |v.keys| && Collected(plan, v, n, f)
    ensures f.node == plan && f.container.Obj?
  {
  }

  lemma NothingLeft(plan: Plan, v: Value)
    requires plan.Object? && v.Obj?
    ensures RestProjects(plan, v, |v.keys|)
  {
  }

  lemma SelectedParts(field: Field, v: Value)
    requires v.Obj? && field.source in v.vals
    ensures Selected(field, v) == if v.vals[field.source].Null? && !AcceptsNull(field.node) then None
      else Some(v.vals[field.source])
  {
  }

  lemma ChildPlan(plan: Plan, j: nat)
    requires Compiled(plan) && plan.Object? && FaithfulFields(plan) && j < |plan.fields|
    ensures Compiled(plan.fields[j].node) && Faithful(plan.fields[j].node)
  {
  }

  lemma NoneCollected(plan: Plan, v: Value)
    requires plan.Object? && v.Obj?
    ensures Collected(plan, v, 0, Child(plan, v, Root))
  {
  }

  lemma AllCollected(field: Field, v: Value, container: Value)
    requires WellFormed(v) && v.Obj? && container.Obj? && FieldCollected(field, v, |v.keys|, container)
    ensures if Selected(field, v).None? then field.output !in container.vals
      else
        && field.output in container.vals
        && Project(field.node, Selected(field, v).value) == Some(container.vals[field.output])
  {
    R.SelectedByAll(field, v);
  }

  /** The fields in their order, from the finished container. */
  lemma {:induction false} FieldsInOrder(plan: Plan, v: Value, f: Frame, i: nat)
    requires plan.Object? && WellFormed(v) && v.Obj? && Collected(plan, v, |v.keys|, f) && i <= |plan.fields|
    ensures ProjectFields(plan, v, i) == Some(InFields(plan.fields[i..], f.container))
    decreases |plan.fields| - i
  {
    hide Project, WellFormed, Selected, R.SelectedBy, ProjectFields, SelectedKeys;
    FieldsStep(plan, v, i);
    if i < |plan.fields| {
      FieldsInOrder(plan, v, f, i + 1);
      AllCollected(plan.fields[i], v, f.container);
    }
    InFieldsStep(plan.fields, f.container, i);
  }

  lemma InFieldsStep(fields: seq<Field>, container: Value, i: nat)
    requires container.Obj? && i <= |fields|
    ensures i == |fields| ==> InFields(fields[i..], container) == []
    ensures i < |fields| ==>
      var key := fields[i].output;
      InFields(fields[i..], container) ==
        if key in container.vals then [(key, container.vals[key])] + InFields(fields[i + 1..], container)
          else InFields(fields[i + 1..], container)
  {
    if i < |fields| {
      assert fields[i..][1..] == fields[i + 1..];
      var rest := InFields(fields[i + 1..], container);
      assert [] + rest == rest;
    }
  }

  lemma {:induction false} FieldsReject(plan: Plan, v: Value, i: nat, j: nat)
    requires plan.Object? && i <= j < |plan.fields|
    requires Selected(plan.fields[j], v).Some? && Project(plan.fields[j].node, Selected(plan.fields[j], v).value).None?
    ensures ProjectFields(plan, v, i).None?
    decreases j - i
  {
    hide Project, Selected, ProjectFields, SelectedKeys;
    FieldsStep(plan, v, i);
    if i < j {
      FieldsReject(plan, v, i + 1, j);
    }
  }

  lemma RestRejects(plan: Plan, v: Value)
    requires plan.Object? && WellFormed(v) && v.Obj? && !RestProjects(plan, v, 0)
    ensures ProjectFields(plan, v, 0).None?
  {
    hide Project, Selected, ProjectFields, WellFormed;
    var j :| 0 <= j < |plan.fields| && plan.fields[j].source in v.keys[0..] && Selected(plan.fields[j], v).Some?
      && Project(plan.fields[j].node, Selected(plan.fields[j], v).value).None?;
    FieldsReject(plan, v, 0, j);
  }

  /** A field is in the output exactly when it is selected. */
  lemma InOutput(plan: Plan, v: Value, f: Frame, j: nat)
    requires plan.Object? && WellFormed(v) && v.Obj? && Collected(plan, v, |v.keys|, f) && j < |plan.fields|
    ensures plan.fields[j].output in f.container.vals <==> Selected(plan.fields[j], v).Some?
  {
    AllCollected(plan.fields[j], v, f.container);
  }

  lemma SelectedPresent(field: Field, v: Value)
    requires v.Obj?
    ensures Present(v, field.source) ==> Selected(field, v).Some?
    ensures !AcceptsNull(field.node) && Selected(field, v).Some? ==> Present(v, field.source)
  {
  }

  lemma RequiredInOutput(plan: Plan, v: Value, f: Frame, i: nat)
    requires plan.Object? && Compiled(plan) && WellFormed(v) && v.Obj? && Collected(plan, v, |v.keys|, f)
    requires RequiredMatch(plan.fields, plan.required) && RequiredPresent(plan.required, v) && i < |plan.required|
    ensures plan.required[i] in f.container.vals
  {
    assert OutputRequired(plan.fields, plan.required, plan.required[i]);
    hide Project, WellFormed, Compiled, R.SelectedBy, Selected, Present, Collected, RequiredMatch;
    var j :| 0 <= j < |plan.fields| && plan.fields[j].output == plan.required[i]
      && plan.fields[j].source in plan.required && !AcceptsNull(plan.fields[j].node);
    var k :| 0 <= k < |plan.required| && plan.required[k] == plan.fields[j].source;
    assert Present(v, plan.required[k]);
    SelectedPresent(plan.fields[j], v);
    InOutput(plan, v, f, j);
  }

  lemma RequiredInSource(plan: Plan, v: Value, f: Frame, i: nat)
    requires plan.Object? && Compiled(plan) && WellFormed(v) && v.Obj? && Collected(plan, v, |v.keys|, f)
    requires RequiredMatch(plan.fields, plan.required) && i < |plan.required|
    requires forall k :: 0 <= k < |plan.required| ==> plan.required[k] in f.container.vals
    ensures Present(v, plan.required[i])
  {
    DistinctFields(plan);
    var j := SourceField(plan, i);
    hide *;
    InOutput(plan, v, f, j);
    SelectedPresent(plan.fields[j], v);
  }

  /** The one field that feeds a required key from the source. */
  lemma SourceField(plan: Plan, i: nat) returns (j: nat)
    requires plan.Object? && Distinct(plan.fields) && RequiredMatch(plan.fields, plan.required) && i < |plan.required|
    ensures j < |plan.fields| && plan.fields[j].source == plan.required[i] && !AcceptsNull(plan.fields[j].node)
    ensures exists k :: 0 <= k < |plan.required| && plan.required[k] == plan.fields[j].output
  {
    hide AcceptsNull;
    assert SourceRequired(plan.fields, plan.required, plan.required[i]);
    j :| 0 <= j < |plan.fields| && plan.fields[j].source == plan.required[i] && plan.fields[j].output in plan.required;
    var k :| 0 <= k < |plan.required| && plan.required[k] == plan.fields[j].output;
    assert OutputRequired(plan.fields, plan.required, plan.required[k]);
  }

  lemma ObjectCloses(plan: Plan, v: Value, f: Frame)
    requires plan.Object? && Compiled(plan) && Faithful(plan) && WellFormed(v) && v.Obj?
    requires Collected(plan, v, |v.keys|, f)
    ensures Close(f) == Project(plan, v)
  {
    FieldsInOrder(plan, v, f, 0);
    assert plan.fields[0..] == plan.fields;
    CollectedParts(plan, v, |v.keys|, f);
    hide ProjectFields, InFields, Collected, WellFormed, Compiled, MapOf, RequiredMatch;
    if RequiredPresent(plan.required, v) {
      forall i | 0 <= i < |plan.required| ensures plan.required[i] in f.container.vals {
        RequiredInOutput(plan, v, f, i);
      }
    } else if forall k :: 0 <= k < |plan.required| ==> plan.required[k] in f.container.vals {
      forall i | 0 <= i < |plan.required| ensures Present(v, plan.required[i]) {
        RequiredInSource(plan, v, f, i);
      }
    }
  }

  lemma ObjectAgrees(plan: Plan, v: Value)
    requires plan.Object? && Compiled(plan) && Faithful(plan) && WellFormed(v) && v.Obj?
    ensures StreamProject(plan, v) == Project(plan, v)
    decreases v, 0, |v.keys| + 1
  {
    ContainerProject(plan, v);
    NoneCollected(plan, v);
    RejectedObject(plan, v);
    assert FaithfulFields(plan);
    hide Collected, RestProjects, Close, Project, FoldMembers, WellFormed, Compiled, Faithful;
    var f := Child(plan, v, Root);
    FoldObject(plan, v, 0, f);
    if RestProjects(plan, v, 0) {
      ObjectCloses(plan, v, FoldMembers(f, v, 0).value);
    } else {
      RestRejects(plan, v);
    }
  }

  lemma RejectedObject(plan: Plan, v: Value)
    requires plan.Object?
    ensures v.Obj? && ProjectFields(plan, v, 0).None? ==> Project(plan, v) == None
    ensures NonNull(plan) == plan
  {
  }

  // ----- maps -----

  lemma MapMember(f: Frame, key: string, item: Value)
    requires WellFormed(item) && f.node.Map? && f.container.Obj?
    ensures FrameStep(f.(pending := Some(key)), item) ==
      if f.sourceItems + 1 > f.node.limit then None
      else if item.Null? then Some(f.(pending := None, sourceItems := f.sourceItems + 1))
      else
        match StreamProject(f.node.values, item)
        case None => None
        case Some(w) => Some(f.(pending := None, sourceItems := f.sourceItems + 1, container :=
                                D.Insert(f.container, key, w)))
  {
    hide StreamProject, WellFormed;
  }

  lemma InsertLast(entries: Entries, key: string, w: Value)
    requires NoDuplicates(KeysOf(entries)) && key !in KeysOf(entries)
    ensures D.Insert(ObjectOf(entries), key, w) == ObjectOf(entries + [(key, w)])
    ensures NoDuplicates(KeysOf(entries + [(key, w)]))
    ensures KeysOf(entries + [(key, w)]) == KeysOf(entries) + [key]
  {
    MapOfFacts(entries);
    assert (entries + [(key, w)])[..|entries|] == entries;
  }

  ghost predicate KeysBefore(v: Value, i: nat, done: Entries)
    requires v.Obj? && i <= |v.keys|
  {
    NoDuplicates(KeysOf(done)) && forall k :: k in KeysOf(done) ==> k in v.keys[..i]
  }

  lemma KeysBeforeNext(v: Value, i: nat, done: Entries, w: Value)
    requires WellFormed(v) && v.Obj? && i < |v.keys| && KeysBefore(v, i, done)
    ensures v.keys[i] !in KeysOf(done)
    ensures KeysBefore(v, i + 1, done) && KeysBefore(v, i + 1, done + [(v.keys[i], w)])
  {
    assert v.keys[..i + 1] == v.keys[..i] + [v.keys[i]];
    assert v.keys[i] !in v.keys[..i];
    InsertLast(done, v.keys[i], w);
  }

  lemma PresentItem(v: Value, i: nat)
    requires WellFormed(v) && v.Obj? && i < |v.keys|
    ensures v.keys[i] in v.vals && WellFormed(v.vals[v.keys[i]])
    ensures Present(v, v.keys[i]) <==> !v.vals[v.keys[i]].Null?
  {
    O.KeyAt(v, i);
  }

  ghost function MapResult(plan: Plan, v: Value, i: nat, done: Entries): Option<Value>
    requires plan.Map? && v.Obj? && i <= |v.keys|
  {
    if |v.keys| > plan.limit then None else AsObject(Joined(done, ProjectEntries(plan, v, i)))
  }

  function ContainerOf(f: Option<Frame>): Option<Value> {
    if f.Some? then Some(f.value.container) else None
  }

  lemma MapResultStep(plan: Plan, v: Value, i: nat, done: Entries)
    requires plan.Map? && WellFormed(v) && v.Obj? && i <= |v.keys|
    ensures i == |v.keys| ==>
      MapResult(plan, v, i, done) == if |v.keys| > plan.limit then None else Some(ObjectOf(done))
    ensures i < |v.keys| ==>
      var item := (PresentItem(v, i); v.vals[v.keys[i]]);
      MapResult(plan, v, i, done) ==
        if item.Null? then MapResult(plan, v, i + 1, done)
        else if Project(plan.values, item).None? then None
        else MapResult(plan, v, i + 1, done + [(v.keys[i], Project(plan.values, item).value)])
  {
    hide Project, ProjectEntries, MapOf, WellFormed, Present;
    EntriesStep(plan, v, i);
    if i < |v.keys| {
      PresentItem(v, i);
      var item := v.vals[v.keys[i]];
      if !item.Null? && Project(plan.values, item).Some? {
        JoinedNext(done, (v.keys[i], Project(plan.values, item).value), ProjectEntries(plan, v, i + 1));
      }
    } else {
      assert done + [] == done;
    }
  }

  lemma {:induction false} FoldMap(plan: Plan, v: Value, i: nat, f: Frame, done: Entries)
    requires Compiled(plan) && Faithful(plan) && plan.Map? && WellFormed(v) && v.Obj? && i <= |v.keys|
    requires f.node == plan && f.sourceItems == i && f.container == ObjectOf(done) && KeysBefore(v, i, done)
    requires (i <= plan.limit)
    ensures ContainerOf(FoldMembers(f, v, i)) == MapResult(plan, v, i, done)
    ensures FoldMembers(f, v, i).Some? ==> FoldMembers(f, v, i).value.node == plan
    decreases v, 0, |v.keys| - i
  {
    hide Project, ProjectEntries, MapOf, WellFormed, Present, FoldMembers, FrameStep, StreamProject, Compiled, Faithful,
      KeysBefore, MapResult;
    MapPlan(plan);
    FoldMembersStep(f, v, i);
    MapResultStep(plan, v, i, done);
    MapTooLong(plan, v, i, done);
    if i < |v.keys| {
      PresentItem(v, i);
      var key := v.keys[i];
      var item := v.vals[key];
      MapMember(f, key, item);
      KeysBeforeNext(v, i, done, Null);
      if i + 1 <= plan.limit {
        var f1 := f.(pending := None, sourceItems := i + 1);
        if item.Null? {
          FoldMap(plan, v, i + 1, f1, done);
        } else {
          StreamIsTree(plan.values, item);
          if Project(plan.values, item).Some? {
            var w := Project(plan.values, item).value;
            KeysBeforeNext(v, i, done, w);
            InsertIs(v, i, done, w);
            FoldMap(plan, v, i + 1, f1.(container := ObjectOf(done + [(key, w)])), done + [(key, w)]);
          }
        }
      }
    }
  }

  lemma InsertIs(v: Value, i: nat, done: Entries, w: Value)
    requires WellFormed(v) && v.Obj? && i < |v.keys| && KeysBefore(v, i, done)
    ensures D.Insert(ObjectOf(done), v.keys[i], w) == ObjectOf(done + [(v.keys[i], w)])
  {
    KeysBeforeNext(v, i, done, w);
    InsertLast(done, v.keys[i], w);
  }

  lemma MapPlan(plan: Plan)
    requires Compiled(plan) && Faithful(plan)
    ensures plan.Map? ==> Compiled(plan.values) && Faithful(plan.values)
    ensures plan.Array? ==> Compiled(plan.items) && Faithful(plan.items)
  {
  }

  lemma MapTooLong(plan: Plan, v: Value, i: nat, done: Entries)
    requires plan.Map? && v.Obj? && i <= |v.keys|
    ensures |v.keys| > plan.limit ==> MapResult(plan, v, i, done) == None
  {
  }

  lemma MapAgrees(plan: Plan, v: Value)
    requires plan.Map? && Compiled(plan) && Faithful(plan) && WellFormed(v) && v.Obj?
    ensures StreamProject(plan, v) == Project(plan, v)
    decreases v, 0, |v.keys| + 1
  {
    ContainerProject(plan, v);
    var f := Child(plan, v, Root);
    EmptyObject();
    FoldMap(plan, v, 0, f, []);
    MapResultStart(plan, v);
    hide FoldMembers, ProjectEntries, MapOf, WellFormed, Compiled, Faithful;
  }

  lemma EmptyObject()
    ensures ObjectOf([]) == Obj([], map[])
  {
  }

  lemma MapResultStart(plan: Plan, v: Value)
    requires plan.Map? && v.Obj?
    ensures MapResult(plan, v, 0, []) == Project(plan, v)
  {
    R.JoinedStart(ProjectEntries(plan, v, 0));
  }

  // ----- arrays -----

  lemma ArrayItem(f: Frame, item: Value)
    requires WellFormed(item) && f.node.Array? && f.container.Arr?
    ensures FrameStep(f, item) ==
      if f.sourceItems + 1 > f.node.limit then
        if f.node.takeFirst then Some(f.(sourceItems := f.sourceItems + 1)) else None
      else
        match StreamProject(f.node.items, item)
        case None => None
        case Some(w) => Some(f.(sourceItems := f.sourceItems + 1, container := Arr(f.container.items + [w])))
  {
    hide StreamProject, WellFormed;
  }

  ghost function ArrayResult(plan: Plan, v: Value, i: nat, done: seq<Value>): Option<Value>
    requires plan.Array? && v.Arr? && i <= |v.items|
  {
    if !plan.takeFirst && |v.items| > plan.limit then None
    else
      var rest := Joined(done, ProjectItems(plan, v, if i < Taken(plan, v) then i else Taken(plan, v)));
      if rest.None? then None else Some(Arr(rest.value))
  }

  lemma ArrayResultStep(plan: Plan, v: Value, i: nat, done: seq<Value>)
    requires plan.Array? && v.Arr? && i <= |v.items|
    ensures i >= Taken(plan, v) ==>
      ArrayResult(plan, v, i, done) == if !plan.takeFirst && |v.items| > plan.limit then None else Some(Arr(done))
    ensures i < Taken(plan, v) ==>
      var w := Project(plan.items, v.items[i]);
      ArrayResult(plan, v, i, done) == if w.None? then None else ArrayResult(plan, v, i + 1, done + [w.value])
  {
    hide Project, ProjectItems;
    if i >= Taken(plan, v) {
      ItemsStep(plan, v, Taken(plan, v));
      assert done + [] == done;
    } else {
      ItemsStep(plan, v, i);
      var w := Project(plan.items, v.items[i]);
      if w.Some? {
        JoinedNext(done, w.value, ProjectItems(plan, v, i + 1));
      }
    }
  }

  lemma {:induction false} FoldArray(plan: Plan, v: Value, i: nat, f: Frame, done: seq<Value>)
    requires Compiled(plan) && Faithful(plan) && plan.Array? && WellFormed(v) && v.Arr? && i <= |v.items|
    requires f.node == plan && f.sourceItems == i && f.container == Arr(done) && (plan.takeFirst || i <= plan.limit)
    ensures ContainerOf(FoldItems(f, v, i)) == ArrayResult(plan, v, i, done)
    ensures FoldItems(f, v, i).Some? ==> FoldItems(f, v, i).value.node == plan
    decreases v, 0, |v.items| - i
  {
    hide Project, ProjectItems, WellFormed, FoldItems, FrameStep, StreamProject, Compiled, Faithful, ArrayResult;
    MapPlan(plan);
    FoldItemsStep(f, v, i);
    ArrayResultStep(plan, v, i, done);
    ArrayTooLong(plan, v, i, done);
    if i < |v.items| {
      ArrayItem(f, v.items[i]);
      if i + 1 > plan.limit {
        if plan.takeFirst {
          ArrayResultStep(plan, v, i + 1, done);
          FoldArray(plan, v, i + 1, f.(sourceItems := i + 1), done);
        }
      } else {
        StreamIsTree(plan.items, v.items[i]);
        var w := Project(plan.items, v.items[i]);
        if w.Some? {
          FoldArray(plan, v, i + 1, f.(sourceItems := i + 1, container := Arr(done + [w.value])), done + [w.value]);
        }
      }
    }
  }

  lemma ArrayTooLong(plan: Plan, v: Value, i: nat, done: seq<Value>)
    requires plan.Array? && v.Arr? && i <= |v.items|
    ensures !plan.takeFirst && |v.items| > plan.limit ==> ArrayResult(plan, v, i, done) == None
  {
  }

  lemma ArrayAgrees(plan: Plan, v: Value)
    requires plan.Array? && Compiled(plan) && Faithful(plan) && WellFormed(v) && v.Arr?
    ensures StreamProject(plan, v) == Project(plan, v)
    decreases v, 0, |v.items| + 1
  {
    ContainerProject(plan, v);
    FoldArray(plan, v, 0, Child(plan, v, Root), []);
    ArrayResultStart(plan, v);
    hide FoldItems, ProjectItems, WellFormed, Compiled, Faithful;
  }

  lemma ArrayResultStart(plan: Plan, v: Value)
    requires plan.Array? && v.Arr?
    ensures ArrayResult(plan, v, 0, []) == Project(plan, v)
  {
    R.JoinedStart(ProjectItems(plan, v, 0));
  }

  // ----- the theorem -----

  lemma WrongContainer(plan: Plan, v: Value)
    requires WellFormed(v) && (v.Arr? || v.Obj?) && !Opens(NonNull(plan), First(v))
    ensures StreamProject(plan, v) == None && Project(NonNull(plan), v) == None
  {
    hide FoldMembers, FoldItems, ProjectFields, ProjectEntries, ProjectItems, WellFormed;
  }

  lemma AtomAgrees(plan: Plan, v: Value)
    requires WellFormed(v) && !v.Arr? && !v.Obj?
    ensures StreamProject(plan, v) == Project(plan, v)
  {
    AtomProject(plan, v);
    if !v.Null? {
      ThroughNullable(plan, v);
    }
    hide StreamProject, WellFormed;
  }

  lemma NonNullStream(plan: Plan, v: Value)
    requires WellFormed(v) && (v.Arr? || v.Obj?)
    ensures StreamProject(plan, v) == StreamProject(NonNull(plan), v)
  {
    NonNullTwice(plan);
    hide FoldMembers, FoldItems, Close, WellFormed;
  }

  lemma {:induction false} NonNullTwice(plan: Plan)
    ensures NonNull(NonNull(plan)) == NonNull(plan)
  {
    if plan.Nullable? {
      NonNullTwice(plan.inner);
    }
  }

  /** The streaming projection gives the value, or the rejection, of the recursive one. */
  lemma {:induction false} StreamIsTree(plan: Plan, v: Value)
    requires Compiled(plan) && Faithful(plan) && WellFormed(v)
    ensures StreamProject(plan, v) == Project(plan, v)
    decreases v, 1
  {
    if !v.Arr? && !v.Obj? {
      AtomAgrees(plan, v);
    } else {
      ThroughNullable(plan, v);
      NonNullStream(plan, v);
      var node := NonNull(plan);
      if !Opens(node, First(v)) {
        WrongContainer(plan, v);
      } else {
        hide Project, StreamProject, WellFormed, Compiled, Faithful;
        if v.Arr? {
          ArrayAgrees(node, v);
        } else if node.Object? {
          ObjectAgrees(node, v);
        } else {
          MapAgrees(node, v);
        }
      }
    }
  }

  /** A fresh builder fed with the events of any value: complete with its projection, or raised. */
  lemma BuilderProjects(plan: Plan, v: Value)
    requires Compiled(plan) && Faithful(plan) && WellFormed(v)
    ensures Run(Some(Start(plan)), Events(v)) ==
      match Project(plan, v)
      case None => None
      case Some(w) => Some(Start(plan).(value := Some(w)))
  {
    RunValue(Start(plan), v);
    DeliverAtRoot(Start(plan), v);
    StreamIsTree(plan, v);
    hide Run, Events, Project, StreamProject, WellFormed, Compiled, Faithful;
  }

  // ----- the condition is exact on flat plans -----

  predicate Flat(plan: Plan) {
    plan.Object? && forall i :: 0 <= i < |plan.fields| ==> plan.fields[i].node.Scalar?
  }

  /** An object whose members are all true or null. */
  ghost predicate Plain(v: Value) {
    WellFormed(v) && v.Obj? && forall k :: k in v.vals ==> v.vals[k] == Null || v.vals[k] == Bool(true)
  }

  lemma FlatFieldsProject(plan: Plan, v: Value)
    requires Flat(plan) && Compiled(plan) && Plain(v)
    ensures FaithfulFields(plan) && RestProjects(plan, v, 0) && ProjectFields(plan, v, 0).Some?
  {
    forall j | 0 <= j < |plan.fields| && Selected(plan.fields[j], v).Some?
      ensures Project(plan.fields[j].node, Selected(plan.fields[j], v).value).Some?
    {
    }
    FlatFieldsFrom(plan, v, 0);
  }

  lemma {:induction false} FlatFieldsFrom(plan: Plan, v: Value, i: nat)
    requires Flat(plan) && Plain(v) && i <= |plan.fields|
    ensures ProjectFields(plan, v, i).Some?
    decreases |plan.fields| - i
  {
    FieldsStep(plan, v, i);
    if i < |plan.fields| {
      FlatFieldsFrom(plan, v, i + 1);
    }
  }

  ghost predicate OutputsSelected(plan: Plan, v: Value)
    requires plan.Object?
  {
    forall i :: 0 <= i < |plan.required| ==> OutputSelected(plan, v, plan.required[i])
  }

  ghost predicate OutputSelected(plan: Plan, v: Value, key: string)
    requires plan.Object?
  {
    exists j :: 0 <= j < |plan.fields| && plan.fields[j].output == key && Selected(plan.fields[j], v).Some?
  }

  /** When each of the two projections accepts a plain object. */
  lemma FlatAccepts(plan: Plan, v: Value)
    requires Flat(plan) && Compiled(plan) && Plain(v)
    ensures Project(plan, v).Some? <==> RequiredPresent(plan.required, v)
    ensures StreamProject(plan, v).Some? <==> OutputsSelected(plan, v)
  {
    FlatFieldsProject(plan, v);
    ContainerProject(plan, v);
    NoneCollected(plan, v);
    RejectedObject(plan, v);
    var start := Child(plan, v, Root);
    FoldObject(plan, v, 0, start);
    var f := FoldMembers(start, v, 0).value;
    CollectedParts(plan, v, |v.keys|, f);
    forall i | 0 <= i < |plan.required|
      ensures plan.required[i] in f.container.vals <==> OutputSelected(plan, v, plan.required[i]) {
      RequiredSelected(plan, v, f, plan.required[i]);
    }
    hide FoldMembers, RestProjects, Collected, InFields, Plain, Flat, Compiled, OutputSelected, ProjectFields, MapOf,
      Selected;
  }

  lemma RequiredSelected(plan: Plan, v: Value, f: Frame, key: string)
    requires plan.Object? && Compiled(plan) && WellFormed(v) && v.Obj? && Collected(plan, v, |v.keys|, f)
    ensures key in f.container.vals <==> OutputSelected(plan, v, key)
  {
    DistinctFields(plan);
    hide Project, WellFormed, Compiled, R.SelectedBy, Selected;
    if IsOutput(plan.fields, key) {
      var j :| 0 <= j < |plan.fields| && plan.fields[j].output == key;
      InOutput(plan, v, f, j);
    }
  }

  function Without(keys: seq<string>, absent: string): seq<string> {
    if keys == [] then []
    else (if keys[0] == absent || keys[0] in keys[1..] then [] else [keys[0]]) + Without(keys[1..], absent)
  }

  lemma {:induction false} WithoutFacts(keys: seq<string>, absent: string)
    ensures NoDuplicates(Without(keys, absent))
    ensures forall k :: k in Without(keys, absent) <==> k in keys && k != absent
  {
    if keys != [] {
      WithoutFacts(keys[1..], absent);
      assert keys == [keys[0]] + keys[1..];
    }
  }

  function SourcesOf(fields: seq<Field>): seq<string> {
    seq(|fields|, i requires 0 <= i < |fields| => fields[i].source)
  }

  /** Every source and required key true, except one absent and one null. */
  function Probe(plan: Plan, absent: string, nulled: string): Value
    requires plan.Object?
  {
    var keys := Without(SourcesOf(plan.fields) + plan.required, absent);
    Obj(keys, map k | k in keys :: if k == nulled then Null else Bool(true))
  }

  lemma ProbeFacts(plan: Plan, absent: string, nulled: string)
    requires plan.Object?
    ensures
      var v := Probe(plan, absent, nulled);
      && Plain(v)
      && (forall j ::
          0 <= j < |plan.fields| && plan.fields[j].source != absent && plan.fields[j].source != nulled ==>
          Present(v, plan.fields[j].source))
      && (forall i :: 0 <= i < |plan.required| && plan.required[i] != absent && plan.required[i] != nulled ==>
          Present(v, plan.required[i]))
      && absent !in v.vals
      && !Present(v, nulled)
      && (nulled != absent && nulled in SourcesOf(plan.fields) + plan.required ==> nulled in v.vals)
  {
    var all := SourcesOf(plan.fields) + plan.required;
    WithoutFacts(all, absent);
    forall j | 0 <= j < |plan.fields| ensures plan.fields[j].source in all {
      assert SourcesOf(plan.fields)[j] == plan.fields[j].source;
    }
  }

  /** A key that is neither a source nor required. */
  lemma FreshKey(keys: seq<string>) returns (key: string)
    ensures key !in keys
  {
    key := Longer(keys);
    forall i | 0 <= i < |keys| ensures keys[i] != key {
      LongerThan(keys, i);
    }
  }

  function Longer(keys: seq<string>): string {
    if keys == [] then "" else keys[0] + Longer(keys[1..]) + "x"
  }

  lemma {:induction false} LongerThan(keys: seq<string>, i: nat)
    requires i < |keys|
    ensures |Longer(keys)| > |keys[i]|
  {
    if i > 0 {
      LongerThan(keys[1..], i - 1);
    }
  }

  lemma MismatchShown(plan: Plan, v: Value)
    requires Flat(plan) && Compiled(plan) && Plain(v)
    requires RequiredPresent(plan.required, v) <==> !OutputsSelected(plan, v)
    ensures StreamProject(plan, v) != Project(plan, v)
  {
    FlatAccepts(plan, v);
    hide StreamProject, Project, Plain, Flat, Compiled, OutputsSelected;
  }

  lemma NoOutputMismatch(plan: Plan, i: nat) returns (v: Value)
    requires Flat(plan) && Compiled(plan) && i < |plan.required| && !IsOutput(plan.fields, plan.required[i])
    ensures WellFormed(v) && StreamProject(plan, v) != Project(plan, v)
  {
    var unused := FreshKey(SourcesOf(plan.fields) + plan.required);
    v := Probe(plan, unused, unused);
    ProbeFacts(plan, unused, unused);
    hide Project, StreamProject, Selected, Present, Compiled, Flat;
    assert !OutputSelected(plan, v, plan.required[i]);
    MismatchShown(plan, v);
  }

  lemma RenamedMismatch(plan: Plan, i: nat, j: nat) returns (v: Value)
    requires Flat(plan) && Compiled(plan) && i < |plan.required| && j < |plan.fields|
    requires plan.fields[j].output == plan.required[i] && plan.fields[j].source !in plan.required
    ensures WellFormed(v) && StreamProject(plan, v) != Project(plan, v)
  {
    DistinctFields(plan);
    var source := plan.fields[j].source;
    v := Probe(plan, source, source);
    ProbeFacts(plan, source, source);
    hide Project, StreamProject, Present, Compiled, Flat;
    assert !OutputSelected(plan, v, plan.required[i]);
    MismatchShown(plan, v);
  }

  lemma NullableMismatch(plan: Plan, i: nat, j: nat) returns (v: Value)
    requires Flat(plan) && Compiled(plan) && i < |plan.required| && j < |plan.fields|
    requires plan.fields[j].output == plan.required[i] && plan.fields[j].source in plan.required
    requires AcceptsNull(plan.fields[j].node)
    requires forall k :: 0 <= k < |plan.required| ==> IsOutput(plan.fields, plan.required[k])
    ensures WellFormed(v) && StreamProject(plan, v) != Project(plan, v)
  {
    DistinctFields(plan);
    var source := plan.fields[j].source;
    var unused := FreshKey(SourcesOf(plan.fields) + plan.required);
    assert SourcesOf(plan.fields)[j] == source;
    v := Probe(plan, unused, source);
    ProbeFacts(plan, unused, source);
    hide Project, StreamProject, Compiled, Flat;
    forall k | 0 <= k < |plan.required| ensures OutputSelected(plan, v, plan.required[k]) {
      var j' :| 0 <= j' < |plan.fields| && plan.fields[j'].output == plan.required[k];
      assert SourcesOf(plan.fields)[j'] == plan.fields[j'].source;
      if j' != j {
        assert Present(v, plan.fields[j'].source);
      }
      assert Selected(plan.fields[j'], v).Some?;
    }
    var k :| 0 <= k < |plan.required| && plan.required[k] == source;
    assert !Present(v, plan.required[k]);
    MismatchShown(plan, v);
  }

  lemma ForeignMismatch(plan: Plan, i: nat) returns (v: Value)
    requires Flat(plan) && Compiled(plan) && i < |plan.required|
    requires !SourceRequired(plan.fields, plan.required, plan.required[i])
    requires forall k :: 0 <= k < |plan.required| ==> IsOutput(plan.fields, plan.required[k])
    ensures WellFormed(v) && StreamProject(plan, v) != Project(plan, v)
  {
    var key := plan.required[i];
    v := Probe(plan, key, key);
    ProbeFacts(plan, key, key);
    hide Project, StreamProject, Compiled, Flat;
    forall k | 0 <= k < |plan.required| ensures OutputSelected(plan, v, plan.required[k]) {
      var j' :| 0 <= j' < |plan.fields| && plan.fields[j'].output == plan.required[k];
      assert plan.fields[j'].output in plan.required;
      assert Present(v, plan.fields[j'].source);
    }
    MismatchShown(plan, v);
  }

  /** On a flat plan without that match, some source is projected differently. */
  lemma FlatMismatch(plan: Plan) returns (v: Value)
    requires Flat(plan) && Compiled(plan) && !RequiredMatch(plan.fields, plan.required)
    ensures WellFormed(v) && StreamProject(plan, v) != Project(plan, v)
  {
    var fields, required := plan.fields, plan.required;
    hide Project, StreamProject, Compiled, Flat, WellFormed;
    if i :| 0 <= i < |required| && !IsOutput(fields, required[i]) {
      v := NoOutputMismatch(plan, i);
    } else if i :| 0 <= i < |required| && !OutputRequired(fields, required, required[i]) {
      v := OutputMismatch(plan, i);
    } else {
      var i :| 0 <= i < |required| && !SourceRequired(fields, required, required[i]);
      v := ForeignMismatch(plan, i);
    }
  }

  lemma OutputMismatch(plan: Plan, i: nat) returns (v: Value)
    requires Flat(plan) && Compiled(plan) && i < |plan.required|
    requires !OutputRequired(plan.fields, plan.required, plan.required[i])
    requires forall k :: 0 <= k < |plan.required| ==> IsOutput(plan.fields, plan.required[k])
    ensures WellFormed(v) && StreamProject(plan, v) != Project(plan, v)
  {
    assert IsOutput(plan.fields, plan.required[i]);
    var j :| 0 <= j < |plan.fields| && plan.fields[j].output == plan.required[i];
    hide Project, StreamProject, Compiled, Flat, WellFormed;
    if plan.fields[j].source !in plan.required {
      v := RenamedMismatch(plan, i, j);
    } else {
      v := NullableMismatch(plan, i, j);
    }
  }

  /** A flat plan is projected alike by both on every value exactly when the required keys
      match; one way round this holds for every plan. */
  lemma FlatExact(plan: Plan)
    requires Flat(plan) && Compiled(plan)
    ensures (forall v :: WellFormed(v) ==> StreamProject(plan, v) == Project(plan, v)) <==>
      RequiredMatch(plan.fields, plan.required)
  {
    if RequiredMatch(plan.fields, plan.required) {
      assert Faithful(plan);
      forall v | WellFormed(v) ensures StreamProject(plan, v) == Project(plan, v) {
        StreamIsTree(plan, v);
      }
    } else {
      var v := FlatMismatch(plan);
    }
  }
}
