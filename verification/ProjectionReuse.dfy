/** Projection into a recycled target, projection of an owned source, and the recycled copy.
    A tree held through an exclusive reference is passed in and handed back. */
module ProjectionReuse {
  import opened Base
  import opened Values
  import opened Projection
  import O = OrderedDelta

  // ----- maps updated in place -----

  /** The first entries are in place, the other slots still hold what the target held. */
  ghost predicate Overwritten(keys: seq<string>, old': map<string, Value>, vals: map<string, Value>, done: Entries) {
    && |done| <= |keys|
    && KeysOf(done) == keys[..|done|]
    && vals.Keys == old'.Keys
    && (forall i :: 0 <= i < |done| ==> done[i].0 in vals && vals[done[i].0] == done[i].1)
  }

  lemma OverwriteNext(keys: seq<string>, old': map<string, Value>, vals: map<string, Value>, done: Entries, w: Value)
    requires Overwritten(keys, old', vals, done) && |done| < |keys| && NoDuplicates(keys) && keys[|done|] in old'
    ensures Overwritten(keys, old', vals[keys[|done|] := w], done + [(keys[|done|], w)])
  {
    var key := keys[|done|];
    var done' := done + [(key, w)];
    assert KeysOf(done') == KeysOf(done) + [key];
    forall i | 0 <= i < |done'| ensures done'[i].0 in vals[key := w] && vals[key := w][done'[i].0] == done'[i].1 {
      if i < |done| {
        assert KeysOf(done)[i] == keys[i] != keys[|done|];
      }
    }
  }

  /** A target overwritten to its last slot is the object of the entries. */
  lemma OverwriteEnd(keys: seq<string>, old': map<string, Value>, vals: map<string, Value>, done: Entries)
    requires Ordered(keys, old') && Overwritten(keys, old', vals, done) && |done| == |keys|
    ensures Obj(keys, vals) == ObjectOf(done)
  {
    assert KeysOf(done) == keys;
    MapOfFacts(done);
    assert vals.Keys == MapOf(done).Keys;
    forall k | k in vals ensures vals[k] == MapOf(done)[k] {
      assert k in keys;
      var i :| 0 <= i < |keys| && keys[i] == k;
      assert done[i].0 == k;
    }
  }

  // ----- scalars -----

  method ReuseScalar(nullable: bool, source: Value, target: Value) returns (res: Option<Value>)
    ensures res == Project(Scalar(nullable), source)
  {
    if source.Arr? || source.Obj? || (source.Null? && !nullable) {
      return None;
    }
    if source.Str? && target.Str? && source.text == target.text {
      return Some(target);
    }
    return Some(source);
  }

  // ----- objects -----

  /** The field fed by a source key, as the index of the plan finds it. */
  function FieldOf(fields: seq<Field>, key: string): (i: nat)
    ensures i <= |fields|
    ensures i < |fields| ==> fields[i].source == key
    ensures forall j :: 0 <= j < i ==> fields[j].source != key
  {
    if fields == [] then 0 else if fields[0].source == key then 0 else 1 + FieldOf(fields[1..], key)
  }

  /** The value a field has been given by the first n members of the source. */
  ghost function SelectedBy(field: Field, source: Value, n: nat): Option<Value>
    requires source.Obj? && n <= |source.keys|
  {
    if field.source in source.keys[..n] then Selected(field, source) else None
  }

  lemma SelectedByNext(fields: seq<Field>, source: Value, n: nat, i: nat)
    requires WellFormed(source) && source.Obj? && n < |source.keys| && Distinct(fields) && i < |fields|
    ensures source.keys[n] in source.vals
    ensures SelectedBy(fields[i], source, n + 1) ==
      if FieldOf(fields, source.keys[n]) == i then Selected(fields[i], source) else SelectedBy(fields[i], source, n)
  {
    var key := source.keys[n];
    O.KeyAt(source, n);
    assert source.keys[..n + 1] == source.keys[..n] + [key];
    FieldOfIs(fields, i);
  }

  lemma FieldOfIs(fields: seq<Field>, i: nat)
    requires Distinct(fields) && i < |fields|
    ensures FieldOf(fields, fields[i].source) == i
  {
    var j := FieldOf(fields, fields[i].source);
    assert j <= i;
  }

  lemma SelectedByAll(field: Field, source: Value)
    requires WellFormed(source) && source.Obj?
    ensures SelectedBy(field, source, |source.keys|) == Selected(field, source)
  {
    assert source.keys[..|source.keys|] == source.keys;
    assert field.source in source.vals <==> field.source in source.keys;
  }

  /** One pass over the source puts every selected value at the index of its field. */
  method Select(fields: seq<Field>, source: Value) returns (selected: seq<Option<Value>>)
    requires WellFormed(source) && source.Obj? && Distinct(fields)
    ensures |selected| == |fields|
    ensures forall i :: 0 <= i < |fields| ==> selected[i] == Selected(fields[i], source)
  {
    selected := seq(|fields|, i => None);
    for n := 0 to |source.keys|
      invariant |selected| == |fields|
      invariant forall i :: 0 <= i < |fields| ==> selected[i] == SelectedBy(fields[i], source, n)
    {
      hide WellFormed, Selected;
      O.KeyAt(source, n);
      var key := source.keys[n];
      forall i | 0 <= i < |fields|
        ensures SelectedBy(fields[i], source, n + 1) == if FieldOf(fields, key) == i then Selected(fields[i], source)
          else SelectedBy(fields[i], source, n)
      {
        SelectedByNext(fields, source, n, i);
      }
      var index := FieldOf(fields, key);
      if index < |fields| {
        SelectedWhen(fields[index], source);
        NotSelectedYet(fields[index], source, n);
        if !source.vals[key].Null? || AcceptsNull(fields[index].node) {
          selected := selected[index := Some(source.vals[key])];
        }
      }
    }
    forall i | 0 <= i < |fields| ensures selected[i] == Selected(fields[i], source) {
      SelectedByAll(fields[i], source);
    }
  }

  lemma SelectedWhen(field: Field, source: Value)
    requires source.Obj? && field.source in source.vals
    ensures Selected(field, source) == if !source.vals[field.source].Null?
      || AcceptsNull(field.node) then Some(source.vals[field.source]) else None
  {
  }

  lemma NotSelectedYet(field: Field, source: Value, n: nat)
    requires WellFormed(source) && source.Obj? && n < |source.keys| && field.source == source.keys[n]
    ensures SelectedBy(field, source, n) == None
  {
    assert source.keys[n] !in source.keys[..n];
  }

  method CollectKeys(plan: Plan, source: Value, selected: seq<Option<Value>>) returns (keys: seq<string>)
    requires plan.Object? && |selected| == |plan.fields|
    requires forall i :: 0 <= i < |plan.fields| ==> selected[i] == Selected(plan.fields[i], source)
    ensures keys == SelectedKeys(plan, source, 0)
  {
    hide Selected, SelectedKeys, ProjectFields;
    keys := [];
    for i := 0 to |plan.fields|
      invariant keys + SelectedKeys(plan, source, i) == SelectedKeys(plan, source, 0)
    {
      FieldsStep(plan, source, i);
      if selected[i].Some? {
        keys := keys + [plan.fields[i].output];
      }
    }
    FieldsStep(plan, source, |plan.fields|);
  }

  /** The projection with every selected child projected into the slot of its key, or into what
      the previous tree held under that key. */
  method ProjectReusing(plan: Plan, source: Value, target: Value) returns (res: Option<Value>)
    requires Compiled(plan) && WellFormed(source) && WellFormed(target)
    ensures res == Project(plan, source)
    decreases plan, 2
  {
    hide ProjectFields, ProjectEntries, ProjectItems, MapOf;
    if plan.Nullable? {
      if source.Null? {
        return Some(Null);
      }
      res := ProjectReusing(plan.inner, source, target);
    } else if plan.Scalar? {
      res := ReuseScalar(plan.nullable, source, target);
    } else if plan.Object? && source.Obj? && |plan.fields| <= 64 {
      for i := 0 to |plan.required|
        invariant forall j :: 0 <= j < i ==> Present(source, plan.required[j])
      {
        if !Present(source, plan.required[i]) {
          return None;
        }
      }
      res := ReuseObject(plan, source, target);
    } else if plan.Array? && source.Arr? {
      if !plan.takeFirst && |source.items| > plan.limit {
        return None;
      }
      res := ReuseArray(plan, source, target);
    } else if plan.Map? && source.Obj? {
      if |source.keys| > plan.limit {
        return None;
      }
      res := ReuseMap(plan, source, target);
    } else {
      res := Project(plan, source);
    }
  }

  method ReuseObject(plan: Plan, source: Value, target: Value) returns (res: Option<Value>)
    requires Compiled(plan) && plan.Object? && WellFormed(source) && source.Obj? && WellFormed(target)
    ensures res == AsObject(ProjectFields(plan, source, 0))
    decreases plan, 1
  {
    var selected := Select(plan.fields, source);
    var keys := CollectKeys(plan, source, selected);
    if target.Obj? && target.keys == keys {
      res := ReuseSlots(plan, source, selected, target);
    } else {
      res := RebuildObject(plan, source, selected, target);
    }
  }

  method ReuseSlots(plan: Plan, source: Value, selected: seq<Option<Value>>, target: Value) returns (res: Option<Value>)
    requires Compiled(plan) && plan.Object? && WellFormed(source) && source.Obj? && WellFormed(target) && target.Obj?
    requires |selected| == |plan.fields| && forall i :: 0 <= i < |plan.fields| ==>
      selected[i] == Selected(plan.fields[i], source)
    requires target.keys == SelectedKeys(plan, source, 0)
    ensures res == AsObject(ProjectFields(plan, source, 0))
    decreases plan, 0
  {
    hide Selected, SelectedKeys, ProjectFields, Project, Overwritten, MapOf, Compiled, WellFormed;
    var vals := target.vals;
    ghost var done: Entries := [];
    SlotsStart(target);
    JoinedStart(ProjectFields(plan, source, 0));
    for i := 0 to |plan.fields|
      invariant Joined(done, ProjectFields(plan, source, i)) == ProjectFields(plan, source, 0)
      invariant Overwritten(target.keys, target.vals, vals, done)
      invariant |done| <= |target.keys| && target.keys[|done|..] == SelectedKeys(plan, source, i)
    {
      FieldsStep(plan, source, i);
      if selected[i].Some? {
        var field := plan.fields[i];
        FieldParts(plan, source, i);
        SlotAt(target, |done|, field.output);
        var w := ProjectReusing(field.node, selected[i].value, target.vals[field.output]);
        if w.None? {
          return None;
        }
        OverwriteNext(target.keys, target.vals, vals, done, w.value);
        JoinedNext(done, (field.output, w.value), ProjectFields(plan, source, i + 1));
        vals := vals[field.output := w.value];
        done := done + [(field.output, w.value)];
      }
    }
    FieldsStep(plan, source, |plan.fields|);
    SlotsEnd(target, vals, done);
    return Some(Obj(target.keys, vals));
  }

  lemma SlotsStart(target: Value)
    requires target.Obj?
    ensures Overwritten(target.keys, target.vals, target.vals, []) && target.keys[0..] == target.keys
  {
  }

  lemma JoinedStart<T>(rest: Option<seq<T>>)
    ensures Joined([], rest) == rest
  {
    if rest.Some? {
      assert [] + rest.value == rest.value;
    }
  }

  lemma SlotAt(target: Value, n: nat, key: string)
    requires WellFormed(target) && target.Obj? && n <= |target.keys| && target.keys[n..] != []
    requires target.keys[n..][0] == key
    ensures n < |target.keys| && target.keys[n] == key && key in target.vals && WellFormed(target.vals[key])
    ensures NoDuplicates(target.keys) && target.keys[n + 1..] == target.keys[n..][1..]
  {
    O.KeyAt(target, n);
  }

  lemma FieldParts(plan: Plan, source: Value, i: nat)
    requires Compiled(plan) && plan.Object? && i < |plan.fields| && WellFormed(source)
    ensures Compiled(plan.fields[i].node)
    ensures Selected(plan.fields[i], source).Some? ==> WellFormed(Selected(plan.fields[i], source).value)
  {
  }

  lemma SlotsEnd(target: Value, vals: map<string, Value>, done: Entries)
    requires WellFormed(target) && target.Obj? && Overwritten(target.keys, target.vals, vals, done)
    requires target.keys[|done|..] == []
    ensures Obj(target.keys, vals) == ObjectOf(done)
    ensures Joined(done, Some([])) == Some(done)
  {
    assert |done| == |target.keys|;
    assert done + [] == done;
    OverwriteEnd(target.keys, target.vals, vals, done);
  }

  method RebuildObject(plan: Plan, source: Value, selected: seq<Option<Value>>, target: Value)
    returns (res: Option<Value>)
    requires Compiled(plan) && plan.Object? && WellFormed(source) && source.Obj? && WellFormed(target)
    requires |selected| == |plan.fields| && forall i :: 0 <= i < |plan.fields| ==>
      selected[i] == Selected(plan.fields[i], source)
    ensures res == AsObject(ProjectFields(plan, source, 0))
    decreases plan, 0
  {
    hide Selected, SelectedKeys, ProjectFields, Project, MapOf, Compiled, WellFormed;
    var previous: map<string, Value> := if target.Obj? then target.vals else map[];
    var output: Entries := [];
    HeldValues(target);
    JoinedStart(ProjectFields(plan, source, 0));
    for i := 0 to |plan.fields|
      invariant Joined(output, ProjectFields(plan, source, i)) == ProjectFields(plan, source, 0)
      invariant forall k :: k in previous ==> WellFormed(previous[k])
    {
      FieldsStep(plan, source, i);
      if selected[i].Some? {
        var field := plan.fields[i];
        FieldParts(plan, source, i);
        NullWellFormed();
        var child := if field.output in previous then previous[field.output] else Null;
        previous := previous - {field.output};
        var w := ProjectReusing(field.node, selected[i].value, child);
        if w.None? {
          return None;
        }
        JoinedNext(output, (field.output, w.value), ProjectFields(plan, source, i + 1));
        output := output + [(field.output, w.value)];
      }
    }
    FieldsStep(plan, source, |plan.fields|);
    assert output + [] == output;
    return Some(ObjectOf(output));
  }

  lemma NullWellFormed()
    ensures WellFormed(Null)
  {
  }

  lemma HeldValues(v: Value)
    requires WellFormed(v)
    ensures v.Obj? ==> forall k :: k in v.vals ==> WellFormed(v.vals[k])
    ensures v.Arr? ==> forall i :: 0 <= i < |v.items| ==> WellFormed(v.items[i])
  {
  }

  // ----- arrays -----

  method ReuseArray(plan: Plan, source: Value, target: Value) returns (res: Option<Value>)
    requires Compiled(plan) && plan.Array? && WellFormed(source) && source.Arr? && WellFormed(target)
    requires plan.takeFirst || |source.items| <= plan.limit
    ensures res == match ProjectItems(plan, source, 0) case None => None case Some(items) => Some(Arr(items))
    decreases plan, 0
  {
    hide ProjectItems, Project, Compiled, WellFormed;
    HeldValues(target);
    HeldValues(source);
    NullWellFormed();
    ItemsPlan(plan);
    var kept := if target.Arr? then target.items else [];
    var count := Taken(plan, source);
    var output := seq(count, i requires 0 <= i < count => if i < |kept| then kept[i] else Null);
    JoinedStart(ProjectItems(plan, source, 0));
    for i := 0 to count
      invariant |output| == count
      invariant forall j :: i <= j < count ==> WellFormed(output[j])
      invariant Joined(output[..i], ProjectItems(plan, source, i)) == ProjectItems(plan, source, 0)
    {
      ItemsStep(plan, source, i);
      var w;
      if plan.items.Scalar? {
        w := ReuseScalar(plan.items.nullable, source.items[i], output[i]);
      } else {
        w := ProjectReusing(plan.items, source.items[i], output[i]);
      }
      if w.None? {
        return None;
      }
      JoinedNext(output[..i], w.value, ProjectItems(plan, source, i + 1));
      assert output[i := w.value][..i + 1] == output[..i] + [w.value];
      output := output[i := w.value];
    }
    ItemsStep(plan, source, count);
    assert output[..count] + [] == output;
    return Some(Arr(output));
  }

  lemma ItemsPlan(plan: Plan)
    requires Compiled(plan)
    ensures plan.Array? ==> Compiled(plan.items)
    ensures plan.Map? ==> Compiled(plan.values)
  {
  }

  // ----- maps -----

  method ReuseMap(plan: Plan, source: Value, target: Value) returns (res: Option<Value>)
    requires Compiled(plan) && plan.Map? && WellFormed(source) && source.Obj? && WellFormed(target)
    ensures res == AsObject(ProjectEntries(plan, source, 0))
    decreases plan, 1
  {
    var keys := CollectPresent(source);
    if target.Obj? && target.keys == keys {
      res := ReuseMapSlots(plan, source, target);
    } else {
      res := RebuildMap(plan, source);
    }
  }

  method CollectPresent(source: Value) returns (keys: seq<string>)
    requires source.Obj?
    ensures keys == PresentKeys(source, 0)
  {
    hide PresentKeys, Present;
    keys := [];
    for i := 0 to |source.keys|
      invariant keys + PresentKeys(source, i) == PresentKeys(source, 0)
    {
      PresentKeysStep(source, i);
      if Present(source, source.keys[i]) {
        keys := keys + [source.keys[i]];
      }
    }
    PresentKeysStep(source, |source.keys|);
  }

  lemma PresentKeysStep(source: Value, i: nat)
    requires source.Obj? && i <= |source.keys|
    ensures i == |source.keys| ==> PresentKeys(source, i) == []
    ensures i < |source.keys| ==>
      PresentKeys(source, i) == (if Present(source, source.keys[i]) then [source.keys[i]] else [])
        + PresentKeys(source, i + 1)
  {
  }

  lemma MemberParts(source: Value, key: string)
    requires WellFormed(source) && Present(source, key)
    ensures source.Obj? && key in source.vals && WellFormed(source.vals[key])
  {
  }

  method ReuseMapSlots(plan: Plan, source: Value, target: Value) returns (res: Option<Value>)
    requires Compiled(plan) && plan.Map? && WellFormed(source) && source.Obj? && WellFormed(target) && target.Obj?
    requires target.keys == PresentKeys(source, 0)
    ensures res == AsObject(ProjectEntries(plan, source, 0))
    decreases plan, 0
  {
    hide Present, PresentKeys, ProjectEntries, Project, Overwritten, MapOf, Compiled, WellFormed;
    ItemsPlan(plan);
    var vals := target.vals;
    ghost var done: Entries := [];
    SlotsStart(target);
    JoinedStart(ProjectEntries(plan, source, 0));
    for i := 0 to |source.keys|
      invariant Joined(done, ProjectEntries(plan, source, i)) == ProjectEntries(plan, source, 0)
      invariant Overwritten(target.keys, target.vals, vals, done)
      invariant |done| <= |target.keys| && target.keys[|done|..] == PresentKeys(source, i)
    {
      EntriesStep(plan, source, i);
      var key := source.keys[i];
      if Present(source, key) {
        MemberParts(source, key);
        SlotAt(target, |done|, key);
        var w := ProjectReusing(plan.values, source.vals[key], target.vals[key]);
        if w.None? {
          return None;
        }
        OverwriteNext(target.keys, target.vals, vals, done, w.value);
        JoinedNext(done, (key, w.value), ProjectEntries(plan, source, i + 1));
        vals := vals[key := w.value];
        done := done + [(key, w.value)];
      }
    }
    EntriesStep(plan, source, |source.keys|);
    SlotsEnd(target, vals, done);
    return Some(Obj(target.keys, vals));
  }

  method RebuildMap(plan: Plan, source: Value) returns (res: Option<Value>)
    requires Compiled(plan) && plan.Map? && WellFormed(source) && source.Obj?
    ensures res == AsObject(ProjectEntries(plan, source, 0))
    decreases plan, 0
  {
    hide Present, PresentKeys, ProjectEntries, Project, MapOf, Compiled, WellFormed;
    ItemsPlan(plan);
    NullWellFormed();
    var output: Entries := [];
    JoinedStart(ProjectEntries(plan, source, 0));
    for i := 0 to |source.keys|
      invariant Joined(output, ProjectEntries(plan, source, i)) == ProjectEntries(plan, source, 0)
    {
      EntriesStep(plan, source, i);
      var key := source.keys[i];
      if Present(source, key) {
        MemberParts(source, key);
        var w := ProjectReusing(plan.values, source.vals[key], Null);
        if w.None? {
          return None;
        }
        JoinedNext(output, (key, w.value), ProjectEntries(plan, source, i + 1));
        output := output + [(key, w.value)];
      }
    }
    EntriesStep(plan, source, |source.keys|);
    assert output + [] == output;
    return Some(ObjectOf(output));
  }

  // ----- owned sources -----

  /** The projection that moves keys, strings and arrays out of a source it owns. */
  method ProjectOwned(plan: Plan, source: Value) returns (res: Option<Value>)
    requires Compiled(plan) && WellFormed(source)
    ensures res == Project(plan, source)
    decreases plan, 1
  {
    hide ProjectFields, ProjectEntries, ProjectItems, MapOf;
    match plan {
      case Scalar(nullable) =>
        if (source.Null? && !nullable) || source.Arr? || source.Obj? {
          return None;
        }
        return Some(source);
      case Nullable(inner) =>
        if source.Null? {
          return Some(source);
        }
        res := ProjectOwned(inner, source);
      case Object(_, required) =>
        if !source.Obj? {
          return None;
        }
        for i := 0 to |required|
          invariant forall j :: 0 <= j < i ==> Present(source, required[j])
        {
          if !Present(source, required[i]) {
            return None;
          }
        }
        res := OwnFields(plan, source);
      case Map(limit, _) =>
        if !source.Obj? || |source.keys| > limit {
          return None;
        }
        res := OwnMembers(plan, source);
      case Array(limit, takeFirst, _) =>
        if !source.Arr? || (!takeFirst && |source.items| > limit) {
          return None;
        }
        res := OwnItems(plan, source);
    }
  }

  method OwnFields(plan: Plan, source: Value) returns (res: Option<Value>)
    requires Compiled(plan) && plan.Object? && WellFormed(source) && source.Obj?
    ensures res == AsObject(ProjectFields(plan, source, 0))
    decreases plan, 0
  {
    FieldsDistinct(plan);
    hide Selected, SelectedKeys, ProjectFields, Project, MapOf, Compiled, WellFormed;
    var selected := Select(plan.fields, source);
    var output: Entries := [];
    JoinedStart(ProjectFields(plan, source, 0));
    for i := 0 to |plan.fields|
      invariant Joined(output, ProjectFields(plan, source, i)) == ProjectFields(plan, source, 0)
    {
      FieldsStep(plan, source, i);
      if selected[i].Some? {
        FieldParts(plan, source, i);
        var w := ProjectOwned(plan.fields[i].node, selected[i].value);
        if w.None? {
          return None;
        }
        JoinedNext(output, (plan.fields[i].output, w.value), ProjectFields(plan, source, i + 1));
        output := output + [(plan.fields[i].output, w.value)];
      }
    }
    FieldsStep(plan, source, |plan.fields|);
    assert output + [] == output;
    return Some(ObjectOf(output));
  }

  lemma FieldsDistinct(plan: Plan)
    requires Compiled(plan) && plan.Object?
    ensures Distinct(plan.fields)
  {
  }

  /** Null members go, the others keep their key and their place. */
  method OwnMembers(plan: Plan, source: Value) returns (res: Option<Value>)
    requires Compiled(plan) && plan.Map? && WellFormed(source) && source.Obj?
    ensures res == AsObject(ProjectEntries(plan, source, 0))
    decreases plan, 0
  {
    hide Present, PresentKeys, ProjectEntries, Project, Overwritten, MapOf, Compiled, WellFormed;
    ItemsPlan(plan);
    var keys := CollectPresent(source);
    var kept := Retained(source, keys);
    var vals := kept;
    ghost var done: Entries := [];
    RetainedFacts(source, keys);
    SlotsStart(Obj(keys, kept));
    JoinedStart(ProjectEntries(plan, source, 0));
    for i := 0 to |source.keys|
      invariant Joined(done, ProjectEntries(plan, source, i)) == ProjectEntries(plan, source, 0)
      invariant Overwritten(keys, kept, vals, done)
      invariant |done| <= |keys| && keys[|done|..] == PresentKeys(source, i)
    {
      EntriesStep(plan, source, i);
      var key := source.keys[i];
      if Present(source, key) {
        MemberParts(source, key);
        RetainedAt(source, keys, |done|, key);
        var w := ProjectOwned(plan.values, kept[key]);
        if w.None? {
          return None;
        }
        OverwriteNext(keys, kept, vals, done, w.value);
        JoinedNext(done, (key, w.value), ProjectEntries(plan, source, i + 1));
        vals := vals[key := w.value];
        done := done + [(key, w.value)];
      }
    }
    EntriesStep(plan, source, |source.keys|);
    RetainedEnd(source, keys, vals, done);
    return Some(Obj(keys, vals));
  }

  function Retained(source: Value, keys: seq<string>): map<string, Value>
    requires source.Obj?
  {
    map k | k in source.vals && k in keys :: source.vals[k]
  }

  lemma RetainedFacts(source: Value, keys: seq<string>)
    requires WellFormed(source) && source.Obj? && keys == PresentKeys(source, 0)
    ensures Ordered(keys, Retained(source, keys))
  {
    PresentKeysFacts(source, 0);
    forall k | k in keys ensures k in source.vals {
      var j :| 0 <= j < |source.keys| && source.keys[j] == k;
      O.KeyAt(source, j);
    }
  }

  lemma RetainedAt(source: Value, keys: seq<string>, n: nat, key: string)
    requires WellFormed(source) && source.Obj? && keys == PresentKeys(source, 0) && key in source.vals
    requires n <= |keys| && keys[n..] != [] && keys[n..][0] == key
    ensures n < |keys| && keys[n] == key && keys[n + 1..] == keys[n..][1..] && NoDuplicates(keys)
    ensures key in Retained(source, keys) && Retained(source, keys)[key] == source.vals[key]
  {
    PresentKeysFacts(source, 0);
    assert keys[n] == key;
  }

  lemma RetainedEnd(source: Value, keys: seq<string>, vals: map<string, Value>, done: Entries)
    requires WellFormed(source) && source.Obj? && keys == PresentKeys(source, 0)
    requires Overwritten(keys, Retained(source, keys), vals, done) && keys[|done|..] == []
    ensures Obj(keys, vals) == ObjectOf(done)
    ensures Joined(done, Some([])) == Some(done)
  {
    RetainedFacts(source, keys);
    assert |done| == |keys|;
    assert done + [] == done;
    OverwriteEnd(keys, Retained(source, keys), vals, done);
  }

  method OwnItems(plan: Plan, source: Value) returns (res: Option<Value>)
    requires Compiled(plan) && plan.Array? && WellFormed(source) && source.Arr?
    requires plan.takeFirst || |source.items| <= plan.limit
    ensures res == match ProjectItems(plan, source, 0) case None => None case Some(items) => Some(Arr(items))
    decreases plan, 0
  {
    hide ProjectItems, Project, Compiled, WellFormed;
    HeldValues(source);
    ItemsPlan(plan);
    var output := source.items[..Taken(plan, source)];
    JoinedStart(ProjectItems(plan, source, 0));
    for i := 0 to Taken(plan, source)
      invariant |output| == Taken(plan, source)
      invariant forall j :: i <= j < |output| ==> output[j] == source.items[j]
      invariant Joined(output[..i], ProjectItems(plan, source, i)) == ProjectItems(plan, source, 0)
    {
      ItemsStep(plan, source, i);
      var w := ProjectOwned(plan.items, output[i]);
      if w.None? {
        return None;
      }
      JoinedNext(output[..i], w.value, ProjectItems(plan, source, i + 1));
      assert output[i := w.value][..i + 1] == output[..i] + [w.value];
      output := output[i := w.value];
    }
    ItemsStep(plan, source, Taken(plan, source));
    assert output[..|output|] + [] == output;
    return Some(Arr(output));
  }

  // ----- the recycled copy -----

  /** A copy of the source that keeps what it can of the target. */
  method Recycle(target: Value, source: Value) returns (result: Value)
    requires WellFormed(target) && WellFormed(source)
    ensures result == source
    decreases source, 1
  {
    if target.Obj? && source.Obj? {
      result := RecycleMap(target, source);
    } else if target.Arr? && source.Arr? {
      HeldValues(target);
      HeldValues(source);
      NullWellFormed();
      hide WellFormed;
      var items := seq(|source.items|,
                       i requires 0 <= i < |source.items| => if i < |target.items| then target.items[i] else Null);
      for i := 0 to |source.items|
        invariant |items| == |source.items|
        invariant forall j :: 0 <= j < i ==> items[j] == source.items[j]
        invariant forall j :: i <= j < |items| ==> WellFormed(items[j])
      {
        var item := Recycle(items[i], source.items[i]);
        items := items[i := item];
      }
      assert items == source.items;
      result := Arr(items);
    } else if target.Str? && source.Str? {
      result := if target.text == source.text then target else Str(source.text);
    } else {
      result := source;
    }
  }

  method RecycleMap(target: Value, source: Value) returns (result: Value)
    requires WellFormed(target) && WellFormed(source) && target.Obj? && source.Obj?
    ensures result == source
    decreases source, 0
  {
    if target.keys != source.keys {
      return source;
    }
    var vals := target.vals;
    OrderedParts(target);
    OrderedParts(source);
    hide WellFormed;
    for i := 0 to |source.keys|
      invariant vals.Keys == target.vals.Keys
      invariant forall j :: 0 <= j < i ==>
        source.keys[j] in source.vals && source.keys[j] in vals && vals[source.keys[j]] == source.vals[source.keys[j]]
    {
      O.KeyAt(source, i);
      O.KeyAt(target, i);
      var key := source.keys[i];
      var item := Recycle(target.vals[key], source.vals[key]);
      vals := vals[key := item];
    }
    forall k | k in source.vals ensures k in vals && vals[k] == source.vals[k] {
      assert k in source.keys;
      var j :| 0 <= j < |source.keys| && source.keys[j] == k;
    }
    assert vals == source.vals;
    result := Obj(target.keys, vals);
  }

  lemma OrderedParts(v: Value)
    requires WellFormed(v) && v.Obj?
    ensures Ordered(v.keys, v.vals)
  {
  }
}
