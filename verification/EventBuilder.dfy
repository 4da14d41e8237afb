/** The streaming projection: a builder fed with parse events, against the recursive one. */
module EventBuilder {
  import opened Base
  import opened Values
  import opened Projection
  import R = ProjectionReuse
  import D = Decode
  import O = OrderedDelta

  datatype Event = StartMap | EndMap | StartArray | EndArray | Key(key: string) | Atom(value: Value)

  /** The parse events of a JSON value. */
  function Events(v: Value): seq<Event>
    requires WellFormed(v)
    decreases v, 1, 0
  {
    match v
    case Arr(_) => [StartArray] + (ItemEvents(v, 0) + [EndArray])
    case Obj(_, _) => [StartMap] + (MemberEvents(v, 0) + [EndMap])
    case _ => [Atom(v)]
  }

  function ItemEvents(v: Value, i: nat): seq<Event>
    requires WellFormed(v) && v.Arr? && i <= |v.items|
    decreases v, 0, |v.items| - i
  {
    if i == |v.items| then [] else Events(v.items[i]) + ItemEvents(v, i + 1)
  }

  function MemberEvents(v: Value, i: nat): seq<Event>
    requires WellFormed(v) && v.Obj? && i <= |v.keys|
    decreases v, 0, |v.keys| - i
  {
    if i == |v.keys| then []
    else
      O.KeyAt(v, i);
      [Key(v.keys[i])] + (Events(v.vals[v.keys[i]]) + MemberEvents(v, i + 1))
  }

  // ----- the state of the builder -----

  /** Where a finished value goes. */
  datatype Slot = Root | FieldSlot(output: string) | EntrySlot(name: string) | ItemSlot

  /** An open container with the node it is projected by. The slot in the parent holds the same
      container; here the parent's copy is brought up to date when the container is closed. */
  datatype Frame = Frame(node: Plan, container: Value, slot: Slot, pending: Option<string>, sourceItems: nat)

  datatype State = State(root: Plan, frames: seq<Frame>, skipDepth: nat, value: Option<Value>)

  predicate Complete(s: State) {
    s.value.Some?
  }

  function Start(root: Plan): State {
    State(root, [], 0, None)
  }

  /** The node behind any nullable wrapper. */
  function NonNull(plan: Plan): (p: Plan)
    ensures !p.Nullable?
    ensures p == plan || p < plan
  {
    if plan.Nullable? then NonNull(plan.inner) else plan
  }

  /** The first field fed by a source key. */
  function FieldFor(fields: seq<Field>, key: Option<string>): Option<Field> {
    if key.None? then None
    else
      var i := R.FieldOf(fields, key.value);
      if i < |fields| then Some(fields[i]) else None
  }

  /** What an open container does with the next value: refuse, ignore, or take it into a slot. */
  datatype Next = Refuse | Ignore(frame: Frame) | Take(node: Plan, slot: Slot, frame: Frame)

  function NextNode(f: Frame): Next {
    match f.node
    case Object(fields, _) =>
      var f1 := f.(pending := None);
      (match FieldFor(fields, f.pending)
       case None => Ignore(f1)
       case Some(field) => Take(field.node, FieldSlot(field.output), f1))
    case Map(limit, values) =>
      var f1 := f.(pending := None, sourceItems := f.sourceItems + 1);
      if f1.sourceItems > limit || f.pending.None? then Refuse else Take(values, EntrySlot(f.pending.value), f1)
    case Array(limit, takeFirst, items) =>
      var f1 := f.(sourceItems := f.sourceItems + 1);
      if f1.sourceItems <= limit then Take(items, ItemSlot, f1)
      else if takeFirst then Ignore(f1)
      else Refuse
    case _ => Refuse
  }

  /** Null members of a map, and null fields that may not be null, are dropped. */
  predicate Dropped(slot: Slot, node: Plan, v: Value) {
    v.Null? && (slot.EntrySlot? || (slot.FieldSlot? && !AcceptsNull(node)))
  }

  function Attach(f: Frame, slot: Slot, v: Value): Option<Frame> {
    match slot
    case Root => None
    case FieldSlot(key) => if f.container.Obj? then Some(f.(container := D.Insert(f.container, key, v))) else None
    case EntrySlot(key) => if f.container.Obj? then Some(f.(container := D.Insert(f.container, key, v))) else None
    case ItemSlot => if f.container.Arr? then Some(f.(container := Arr(f.container.items + [v]))) else None
  }

  /** The finished child replaces the copy its parent has held since it was opened. */
  function Update(f: Frame, slot: Slot, v: Value): Frame {
    match slot
    case Root => f
    case FieldSlot(key) => if f.container.Obj? then f.(container := D.Insert(f.container, key, v)) else f
    case EntrySlot(key) => if f.container.Obj? then f.(container := D.Insert(f.container, key, v)) else f
    case ItemSlot =>
      if f.container.Arr? && f.container.items != []
        then f.(container := Arr(f.container.items[|f.container.items| - 1 := v])) else f
  }

  function ProjectAtom(node: Plan, v: Value): Option<Value> {
    if v.Null? && AcceptsNull(node) then Some(v)
    else
      match NonNull(node)
      case Scalar(nullable) => if v.Null? && !nullable then None else Some(v)
      case _ => None
  }

  function InFields(fields: seq<Field>, container: Value): Entries
    requires container.Obj?
  {
    if fields == [] then []
    else
      (if fields[0].output in container.vals then [(fields[0].output, container.vals[fields[0].output])] else [])
      + InFields(fields[1..], container)
  }

  /** Closing a container: required keys are looked for in the output, fields get their order. */
  function Close(f: Frame): Option<Value> {
    if f.node.Object? && f.container.Obj? then
      if exists i :: 0 <= i < |f.node.required| && f.node.required[i] !in f.container.vals then None
      else Some(ObjectOf(InFields(f.node.fields, f.container)))
    else Some(f.container)
  }

  function EmptyContainer(e: Event): Value {
    if e.StartMap? then Obj([], map[]) else Arr([])
  }

  predicate Opens(node: Plan, e: Event) {
    (e.StartMap? && (node.Object? || node.Map?)) || (e.StartArray? && node.Array?)
  }

  function Top(s: State): Frame
    requires s.frames != []
  {
    s.frames[|s.frames| - 1]
  }

  function WithTop(s: State, f: Frame): State
    requires s.frames != []
  {
    s.(frames := s.frames[|s.frames| - 1 := f])
  }

  /** The event that begins a value, for the node and the slot it goes to. */
  function Begin(s: State, e: Event, node: Plan, slot: Slot): Option<State>
    requires slot.Root? <==> s.frames == []
  {
    if e.Atom? then
      if Dropped(slot, node, e.value) then Some(s)
      else
        (match ProjectAtom(node, e.value)
         case None => None
         case Some(w) =>
           if s.frames == [] then Some(s.(value := Some(w)))
           else
             match Attach(Top(s), slot, w)
             case None => None
             case Some(f) => Some(WithTop(s, f)))
    else if !Opens(NonNull(node), e) then None
    else
      var child := Frame(NonNull(node), EmptyContainer(e), slot, None, 0);
      if s.frames == [] then Some(s.(frames := [child]))
      else
        match Attach(Top(s), slot, EmptyContainer(e))
        case None => None
        case Some(f) => Some(WithTop(s, f).(frames := WithTop(s, f).frames + [child]))
  }

  function End(s: State, e: Event): Option<State> {
    if s.frames == [] then None
    else
      var f := Top(s);
      if e.EndMap? != f.container.Obj? then None
      else
        match Close(f)
        case None => None
        case Some(w) =>
          var popped := s.(frames := s.frames[..|s.frames| - 1]);
          if popped.frames == [] then Some(popped.(value := Some(w)))
          else Some(WithTop(popped, Update(Top(popped), f.slot, w)))
  }

  /** An ignored container is skipped to its end. */
  function Skipping(s: State, e: Event): State {
    if e.Atom? then s else s.(skipDepth := 1)
  }

  /** One event; none when the builder raises. */
  function Step(s: State, e: Event): Option<State> {
    if Complete(s) then None
    else if s.skipDepth > 0 then
      if e.StartMap? || e.StartArray? then Some(s.(skipDepth := s.skipDepth + 1))
      else if e.EndMap? || e.EndArray? then Some(s.(skipDepth := s.skipDepth - 1))
      else Some(s)
    else
      match e
      case Key(key) =>
        if s.frames == [] || !Top(s).container.Obj? then None else Some(WithTop(s, Top(s).(pending := Some(key))))
      case EndMap => End(s, e)
      case EndArray => End(s, e)
      case _ =>
        if s.frames == [] then Begin(s, e, s.root, Root)
        else
          match NextNode(Top(s))
          case Refuse => None
          case Ignore(f) => Some(Skipping(WithTop(s, f), e))
          case Take(node, slot, f) => Begin(WithTop(s, f), e, node, slot)
  }

  function Run(s: Option<State>, events: seq<Event>): Option<State>
    decreases events
  {
    if s.None? || events == [] then s else Run(Step(s.value, events[0]), events[1..])
  }

  lemma {:induction false} RunAppend(s: Option<State>, a: seq<Event>, b: seq<Event>)
    ensures Run(s, a + b) == Run(Run(s, a), b)
    decreases a
  {
    if s.None? {
    } else if a == [] {
      assert a + b == b;
    } else {
      RunAppend(Step(s.value, a[0]), a[1..], b);
      assert (a + b)[1..] == a[1..] + b;
    }
  }

  lemma RunFirst(s: State, e: Event, rest: seq<Event>)
    ensures Run(Some(s), [e] + rest) == Run(Step(s, e), rest)
  {
    assert ([e] + rest)[1..] == rest;
  }

  // ----- what feeding one value amounts to -----

  /** The value taken by an open container. */
  function FrameStep(f: Frame, v: Value): Option<Frame>
    requires WellFormed(v)
    decreases v, 2, 0
  {
    match NextNode(f)
    case Refuse => None
    case Ignore(f1) => Some(f1)
    case Take(node, slot, f1) =>
      if Dropped(slot, node, v) then Some(f1)
      else
        match StreamProject(node, v)
        case None => None
        case Some(w) => Attach(f1, slot, w)
  }

  /** The value a fresh builder makes of the events of v. */
  function StreamProject(plan: Plan, v: Value): Option<Value>
    requires WellFormed(v)
    decreases v, 1, 0
  {
    var node := NonNull(plan);
    match v
    case Obj(_, _) =>
      if !Opens(node, StartMap) then None
      else
        (match FoldMembers(Frame(node, EmptyContainer(StartMap), Root, None, 0), v, 0)
         case None => None
         case Some(f) => Close(f))
    case Arr(_) =>
      if !Opens(node, StartArray) then None
      else
        (match FoldItems(Frame(node, EmptyContainer(StartArray), Root, None, 0), v, 0)
         case None => None
         case Some(f) => Close(f))
    case _ => ProjectAtom(plan, v)
  }

  function FoldMembers(f: Frame, v: Value, i: nat): Option<Frame>
    requires WellFormed(v) && v.Obj? && i <= |v.keys|
    decreases v, 0, |v.keys| - i
  {
    if i == |v.keys| then Some(f)
    else
      O.KeyAt(v, i);
      match FrameStep(f.(pending := Some(v.keys[i])), v.vals[v.keys[i]])
      case None => None
      case Some(f1) => FoldMembers(f1, v, i + 1)
  }

  function FoldItems(f: Frame, v: Value, i: nat): Option<Frame>
    requires WellFormed(v) && v.Arr? && i <= |v.items|
    decreases v, 0, |v.items| - i
  {
    if i == |v.items| then Some(f)
    else
      match FrameStep(f, v.items[i])
      case None => None
      case Some(f1) => FoldItems(f1, v, i + 1)
  }

  // ----- feeding the events of a value -----

  /** The container has the shape of its node. */
  predicate Shaped(f: Frame) {
    if f.node.Array? then f.container.Arr? else (f.node.Object? || f.node.Map?) && f.container.Obj?
  }

  /** Nothing skipped, nothing finished, and the innermost container has the shape of its node. */
  ghost predicate Ready(s: State) {
    s.skipDepth == 0 && !Complete(s) && (s.frames != [] ==> Shaped(Top(s)))
  }

  /** The state after a whole value. */
  function Deliver(s: State, v: Value): Option<State>
    requires WellFormed(v)
  {
    if s.frames == [] then
      match StreamProject(s.root, v)
      case None => None
      case Some(w) => Some(s.(value := Some(w)))
    else
      match FrameStep(Top(s), v)
      case None => None
      case Some(f) => Some(WithTop(s, f))
  }

  /** Every event of a value is swallowed while something is skipped. */
  lemma {:induction false} SkipValue(s: State, v: Value)
    requires WellFormed(v) && !Complete(s) && s.skipDepth > 0
    ensures Run(Some(s), Events(v)) == Some(s)
    decreases v, 1, 0
  {
    hide *;
    var deeper := s.(skipDepth := s.skipDepth + 1);
    EventsShape(v);
    SkipSteps(s);
    SkipSteps(deeper);
    match v {
      case Arr(_) =>
        SkipItems(deeper, v, 0);
        Bracketed(s, StartArray, ItemEvents(v, 0), EndArray, deeper, deeper);
      case Obj(_, _) =>
        SkipMembers(deeper, v, 0);
        Bracketed(s, StartMap, MemberEvents(v, 0), EndMap, deeper, deeper);
      case _ =>
        RunOne(s, Atom(v));
    }
  }

  lemma SkipSteps(s: State)
    requires !Complete(s) && s.skipDepth > 0
    ensures Step(s, StartArray) == Some(s.(skipDepth := s.skipDepth + 1)) == Step(s, StartMap)
    ensures Step(s, EndArray) == Some(s.(skipDepth := s.skipDepth - 1)) == Step(s, EndMap)
    ensures forall v :: Step(s, Atom(v)) == Some(s)
    ensures forall k :: Step(s, Key(k)) == Some(s)
    ensures !Complete(s.(skipDepth := s.skipDepth + 1))
  {
  }

  lemma EventsShape(v: Value)
    requires WellFormed(v)
    ensures v.Arr? ==> Events(v) == [StartArray] + (ItemEvents(v, 0) + [EndArray])
    ensures v.Obj? ==> Events(v) == [StartMap] + (MemberEvents(v, 0) + [EndMap])
    ensures !v.Arr? && !v.Obj? ==> Events(v) == [Atom(v)]
  {
  }

  lemma ItemEventsStep(v: Value, i: nat)
    requires WellFormed(v) && v.Arr? && i <= |v.items|
    ensures i == |v.items| ==> ItemEvents(v, i) == []
    ensures i < |v.items| ==> WellFormed(v.items[i]) && ItemEvents(v, i) == Events(v.items[i]) + ItemEvents(v, i + 1)
  {
  }

  lemma MemberEventsStep(v: Value, i: nat)
    requires WellFormed(v) && v.Obj? && i <= |v.keys|
    ensures i == |v.keys| ==> MemberEvents(v, i) == []
    ensures i < |v.keys| ==>
      && v.keys[i] in v.vals && WellFormed(v.vals[v.keys[i]])
      && MemberEvents(v, i) == [Key(v.keys[i])] + (Events(v.vals[v.keys[i]]) + MemberEvents(v, i + 1))
  {
    if i < |v.keys| {
      O.KeyAt(v, i);
    }
  }

  lemma RunOne(s: State, e: Event)
    ensures Run(Some(s), [e]) == Step(s, e)
  {
    assert [e][1..] == [];
  }

  lemma RunNothing(s: Option<State>)
    ensures Run(s, []) == s
  {
  }

  lemma RunNone(events: seq<Event>)
    ensures Run(None, events) == None
  {
  }

  lemma Bracketed(s: State, first: Event, body: seq<Event>, last: Event, inside: State, outside: State)
    requires Step(s, first) == Some(inside) && Run(Some(inside), body) == Some(outside)
    ensures Run(Some(s), [first] + (body + [last])) == Step(outside, last)
  {
    hide *;
    RunFirst(s, first, body + [last]);
    RunAppend(Some(inside), body, [last]);
    RunOne(outside, last);
  }

  lemma {:induction false} SkipItems(s: State, v: Value, i: nat)
    requires WellFormed(v) && v.Arr? && i <= |v.items| && !Complete(s) && s.skipDepth > 0
    ensures Run(Some(s), ItemEvents(v, i)) == Some(s)
    decreases v, 0, |v.items| - i
  {
    hide *;
    ItemEventsStep(v, i);
    if i < |v.items| {
      SkipValue(s, v.items[i]);
      SkipItems(s, v, i + 1);
      RunAppend(Some(s), Events(v.items[i]), ItemEvents(v, i + 1));
    } else {
      RunNothing(Some(s));
    }
  }

  lemma {:induction false} SkipMembers(s: State, v: Value, i: nat)
    requires WellFormed(v) && v.Obj? && i <= |v.keys| && !Complete(s) && s.skipDepth > 0
    ensures Run(Some(s), MemberEvents(v, i)) == Some(s)
    decreases v, 0, |v.keys| - i
  {
    hide *;
    MemberEventsStep(v, i);
    if i < |v.keys| {
      var item := v.vals[v.keys[i]];
      SkipSteps(s);
      RunFirst(s, Key(v.keys[i]), Events(item) + MemberEvents(v, i + 1));
      SkipValue(s, item);
      SkipMembers(s, v, i + 1);
      RunAppend(Some(s), Events(item), MemberEvents(v, i + 1));
    } else {
      RunNothing(Some(s));
    }
  }

  lemma {:induction false} SlotKept(f: Frame, v: Value, slot: Slot)
    requires WellFormed(v)
    ensures FrameStep(f.(slot := slot), v) == Reslot(FrameStep(f, v), slot)
    ensures Shaped(f) && FrameStep(f, v).Some? ==> Shaped(FrameStep(f, v).value) && FrameStep(f, v).value.slot == f.slot
  {
    hide StreamProject, WellFormed, Dropped;
  }

  function Reslot(f: Option<Frame>, slot: Slot): Option<Frame> {
    if f.Some? then Some(f.value.(slot := slot)) else None
  }

  lemma {:induction false} SlotKeptByMembers(f: Frame, v: Value, i: nat, slot: Slot)
    requires WellFormed(v) && v.Obj? && i <= |v.keys| && Shaped(f)
    ensures FoldMembers(f.(slot := slot), v, i) == Reslot(FoldMembers(f, v, i), slot)
    ensures FoldMembers(f, v, i).Some? ==>
      Shaped(FoldMembers(f, v, i).value) && FoldMembers(f, v, i).value.slot == f.slot
    decreases |v.keys| - i
  {
    hide FrameStep, WellFormed;
    FoldMembersStep(f, v, i);
    FoldMembersStep(f.(slot := slot), v, i);
    if i < |v.keys| {
      var item := v.vals[v.keys[i]];
      var f0 := f.(pending := Some(v.keys[i]));
      SlotKept(f0, item, slot);
      if FrameStep(f0, item).Some? {
        SlotKeptByMembers(FrameStep(f0, item).value, v, i + 1, slot);
      }
    }
  }

  lemma FoldMembersStep(f: Frame, v: Value, i: nat)
    requires WellFormed(v) && v.Obj? && i <= |v.keys|
    ensures i == |v.keys| ==> FoldMembers(f, v, i) == Some(f)
    ensures i < |v.keys| ==> v.keys[i] in v.vals && WellFormed(v.vals[v.keys[i]])
    ensures i < |v.keys| ==>
      var next := FrameStep(f.(pending := Some(v.keys[i])), v.vals[v.keys[i]]);
      FoldMembers(f, v, i) == if next.None? then None else FoldMembers(next.value, v, i + 1)
  {
    if i < |v.keys| {
      O.KeyAt(v, i);
    }
  }

  lemma {:induction false} SlotKeptByItems(f: Frame, v: Value, i: nat, slot: Slot)
    requires WellFormed(v) && v.Arr? && i <= |v.items| && Shaped(f)
    ensures FoldItems(f.(slot := slot), v, i) == Reslot(FoldItems(f, v, i), slot)
    ensures FoldItems(f, v, i).Some? ==> Shaped(FoldItems(f, v, i).value) && FoldItems(f, v, i).value.slot == f.slot
    decreases |v.items| - i
  {
    hide FrameStep, WellFormed;
    FoldItemsStep(f, v, i);
    FoldItemsStep(f.(slot := slot), v, i);
    if i < |v.items| {
      SlotKept(f, v.items[i], slot);
      if FrameStep(f, v.items[i]).Some? {
        SlotKeptByItems(FrameStep(f, v.items[i]).value, v, i + 1, slot);
      }
    }
  }

  lemma FoldItemsStep(f: Frame, v: Value, i: nat)
    requires WellFormed(v) && v.Arr? && i <= |v.items|
    ensures i == |v.items| ==> FoldItems(f, v, i) == Some(f)
    ensures i < |v.items| ==> WellFormed(v.items[i])
    ensures i < |v.items| ==>
      var next := FrameStep(f, v.items[i]);
      FoldItems(f, v, i) == if next.None? then None else FoldItems(next.value, v, i + 1)
  {
  }

  /** Feeding the members from i on folds them into the innermost frame. */
  lemma {:induction false} RunMembers(s: State, v: Value, i: nat)
    requires WellFormed(v) && v.Obj? && i <= |v.keys| && Ready(s) && s.frames != [] && Top(s).container.Obj?
    ensures Run(Some(s), MemberEvents(v, i)) == Folded(s, FoldMembers(Top(s), v, i))
    decreases v, 0, |v.keys| - i
  {
    hide *;
    MemberEventsStep(v, i);
    FoldMembersStep(Top(s), v, i);
    if i == |v.keys| {
      RunNothing(Some(s));
      FoldedSame(s);
    } else {
      var key := v.keys[i];
      var item := v.vals[key];
      var s1 := WithTop(s, Top(s).(pending := Some(key)));
      KeyStep(s, key);
      RunFirst(s, Key(key), Events(item) + MemberEvents(v, i + 1));
      RunAppend(Some(s1), Events(item), MemberEvents(v, i + 1));
      RunValue(s1, item);
      DeliverInside(s1, item);
      var next := FrameStep(Top(s1), item);
      FoldedParts(s1, next);
      if next.None? {
        RunNone(MemberEvents(v, i + 1));
        FoldedParts(s, FoldMembers(Top(s), v, i));
      } else {
        var s2 := WithTop(s1, next.value);
        StillReady(s1, item);
        RunMembers(s2, v, i + 1);
        FoldedTwice(s, s1, s2, Top(s1), next.value, FoldMembers(next.value, v, i + 1));
      }
    }
  }

  function Folded(s: State, f: Option<Frame>): Option<State>
    requires s.frames != []
  {
    if f.None? then None else Some(WithTop(s, f.value))
  }

  lemma FoldedParts(s: State, f: Option<Frame>)
    requires s.frames != []
    ensures Folded(s, f) == if f.None? then None else Some(WithTop(s, f.value))
  {
  }

  lemma FoldedSame(s: State)
    requires s.frames != []
    ensures Folded(s, Some(Top(s))) == Some(s) && WithTop(s, Top(s)) == s
  {
    var n := |s.frames| - 1;
    assert s.frames[n := s.frames[n]] == s.frames;
  }

  lemma FoldedTwice(s: State, s1: State, s2: State, f1: Frame, f2: Frame, f: Option<Frame>)
    requires s.frames != [] && s1 == WithTop(s, f1) && s1.frames != [] && s2 == WithTop(s1, f2)
    ensures s2.frames != [] && Top(s2) == f2 && Folded(s2, f) == Folded(s, f)
  {
    if f.Some? {
      var n := |s.frames| - 1;
      assert s.frames[n := f1][n := f2][n := f.value] == s.frames[n := f.value];
    }
  }

  lemma KeyStep(s: State, key: string)
    requires Ready(s) && s.frames != [] && Top(s).container.Obj?
    ensures
      var s1 := WithTop(s, Top(s).(pending := Some(key)));
      && Step(s, Key(key)) == Some(s1) && s1.frames != [] && Top(s1) == Top(s).(pending := Some(key)) && Ready(s1)
  {
  }

  lemma DeliverInside(s: State, v: Value)
    requires WellFormed(v) && s.frames != []
    ensures Deliver(s, v) == Folded(s, FrameStep(Top(s), v))
  {
  }

  lemma StillReady(s: State, v: Value)
    requires WellFormed(v) && Ready(s) && s.frames != [] && FrameStep(Top(s), v).Some?
    ensures
      var s2 := WithTop(s, FrameStep(Top(s), v).value);
      && s2.frames != [] && Top(s2) == FrameStep(Top(s), v).value && Ready(s2)
      && (Top(s2).container.Obj? <==> Top(s).container.Obj?)
  {
    SlotKept(Top(s), v, Root);
    NodeKept(Top(s), v);
    hide FrameStep, WellFormed;
  }

  lemma NodeKept(f: Frame, v: Value)
    requires WellFormed(v) && FrameStep(f, v).Some?
    ensures FrameStep(f, v).value.node == f.node && (FrameStep(f, v).value.container.Obj? <==> f.container.Obj?)
  {
    hide StreamProject, WellFormed, Dropped;
  }

  lemma {:induction false} RunItems(s: State, v: Value, i: nat)
    requires WellFormed(v) && v.Arr? && i <= |v.items| && Ready(s) && s.frames != []
    ensures Run(Some(s), ItemEvents(v, i)) == Folded(s, FoldItems(Top(s), v, i))
    decreases v, 0, |v.items| - i
  {
    hide *;
    ItemEventsStep(v, i);
    FoldItemsStep(Top(s), v, i);
    if i == |v.items| {
      RunNothing(Some(s));
      FoldedSame(s);
    } else {
      var item := v.items[i];
      RunAppend(Some(s), Events(item), ItemEvents(v, i + 1));
      RunValue(s, item);
      DeliverInside(s, item);
      var next := FrameStep(Top(s), item);
      FoldedParts(s, next);
      if next.None? {
        RunNone(ItemEvents(v, i + 1));
        FoldedParts(s, FoldItems(Top(s), v, i));
      } else {
        var s2 := WithTop(s, next.value);
        StillReady(s, item);
        RunItems(s2, v, i + 1);
        FoldedSame(s);
        FoldedTwice(s, s, s2, Top(s), next.value, FoldItems(next.value, v, i + 1));
      }
    }
  }

  lemma AtomProject(plan: Plan, v: Value)
    requires WellFormed(v) && !v.Arr? && !v.Obj?
    ensures StreamProject(plan, v) == ProjectAtom(plan, v)
  {
  }

  lemma AtomAtRoot(s: State, v: Value)
    requires WellFormed(v) && Ready(s) && s.frames == [] && !v.Arr? && !v.Obj?
    ensures Step(s, Atom(v)) == Deliver(s, v)
  {
    AtomProject(s.root, v);
    hide WellFormed, ProjectAtom, StreamProject;
  }

  lemma AtomInside(s: State, v: Value)
    requires WellFormed(v) && Ready(s) && s.frames != [] && !v.Arr? && !v.Obj?
    ensures Step(s, Atom(v)) == Deliver(s, v)
  {
    var next := NextNode(Top(s));
    TakesInside(Top(s));
    if next.Take? {
      AtomProject(next.node, v);
    }
    hide WellFormed, StreamProject, NextNode, Attach, ProjectAtom, Dropped, Shaped;
    if next.Take? {
      var n := |s.frames| - 1;
      var w := ProjectAtom(next.node, v);
      if w.Some? && Attach(next.frame, next.slot, w.value).Some? {
        var g := Attach(next.frame, next.slot, w.value).value;
        assert s.frames[n := next.frame][n := g] == s.frames[n := g];
      }
    }
  }

  lemma TakesInside(f: Frame)
    ensures NextNode(f).Take? ==> !NextNode(f).slot.Root?
  {
  }

  function First(v: Value): Event {
    if v.Obj? then StartMap else StartArray
  }

  function Last(v: Value): Event {
    if v.Obj? then EndMap else EndArray
  }

  function Body(v: Value): seq<Event>
    requires WellFormed(v) && (v.Arr? || v.Obj?)
  {
    if v.Obj? then MemberEvents(v, 0) else ItemEvents(v, 0)
  }

  function FoldBody(f: Frame, v: Value): Option<Frame>
    requires WellFormed(v) && (v.Arr? || v.Obj?)
  {
    if v.Obj? then FoldMembers(f, v, 0) else FoldItems(f, v, 0)
  }

  function Child(plan: Plan, v: Value, slot: Slot): Frame {
    Frame(NonNull(plan), EmptyContainer(First(v)), slot, None, 0)
  }

  lemma ContainerEvents(v: Value)
    requires WellFormed(v) && (v.Arr? || v.Obj?)
    ensures Events(v) == [First(v)] + (Body(v) + [Last(v)])
  {
  }

  lemma ContainerProject(plan: Plan, v: Value)
    requires WellFormed(v) && (v.Arr? || v.Obj?)
    ensures StreamProject(plan, v) ==
      if !Opens(NonNull(plan), First(v)) then None
      else
        match FoldBody(Child(plan, v, Root), v)
        case None => None
        case Some(f) => Close(f)
  {
    hide FoldMembers, FoldItems, Close, WellFormed;
  }

  lemma RunBody(s: State, v: Value)
    requires WellFormed(v) && (v.Arr? || v.Obj?) && Ready(s) && s.frames != [] && (v.Obj? ==> Top(s).container.Obj?)
    ensures Run(Some(s), Body(v)) == Folded(s, FoldBody(Top(s), v))
    decreases v, 1
  {
    if v.Obj? {
      RunMembers(s, v, 0);
    } else {
      RunItems(s, v, 0);
    }
  }

  lemma SlotKeptByBody(f: Frame, v: Value, slot: Slot)
    requires WellFormed(v) && (v.Arr? || v.Obj?) && Shaped(f)
    ensures FoldBody(f.(slot := slot), v) == Reslot(FoldBody(f, v), slot)
    ensures FoldBody(f, v).Some? ==> Shaped(FoldBody(f, v).value)
  {
    if v.Obj? {
      SlotKeptByMembers(f, v, 0, slot);
    } else {
      SlotKeptByItems(f, v, 0, slot);
    }
  }

  lemma SkipBody(s: State, v: Value)
    requires WellFormed(v) && (v.Arr? || v.Obj?) && !Complete(s) && s.skipDepth > 0
    ensures Run(Some(s), Body(v)) == Some(s)
  {
    if v.Obj? {
      SkipMembers(s, v, 0);
    } else {
      SkipItems(s, v, 0);
    }
  }

  /** The closing event of an ignored container leaves the state its opening event found. */
  lemma IgnoredContainer(s: State, v: Value, f: Frame)
    requires WellFormed(v) && (v.Arr? || v.Obj?) && Ready(s) && s.frames != [] && NextNode(Top(s)) == Ignore(f)
    ensures Step(s, First(v)) == Some(WithTop(s, f).(skipDepth := 1))
    ensures Step(WithTop(s, f).(skipDepth := 1), Last(v)) == Some(WithTop(s, f))
    ensures FrameStep(Top(s), v) == Some(f)
    ensures !Complete(WithTop(s, f).(skipDepth := 1))
  {
    hide NextNode, WellFormed, Shaped;
  }

  lemma RefusedContainer(s: State, v: Value)
    requires WellFormed(v) && (v.Arr? || v.Obj?) && Ready(s) && s.frames != [] && NextNode(Top(s)).Refuse?
    ensures Step(s, First(v)) == None && FrameStep(Top(s), v) == None
  {
    hide NextNode, WellFormed, Shaped;
  }

  /** An opened child: the parent holds its empty copy, the child is innermost. */
  function OpenedChild(s: State, v: Value, node: Plan, slot: Slot, parent: Frame): State
    requires s.frames != []
  {
    WithTop(s, parent).(frames := WithTop(s, parent).frames + [Child(node, v, slot)])
  }

  lemma TakenContainer(s: State, v: Value, node: Plan, slot: Slot, f: Frame)
    requires WellFormed(v) && (v.Arr? || v.Obj?) && Ready(s) && s.frames != []
    requires NextNode(Top(s)) == Take(node, slot, f)
    ensures Step(s, First(v)) ==
      if !Opens(NonNull(node), First(v)) || Attach(f, slot, EmptyContainer(First(v))).None? then None
      else Some(OpenedChild(s, v, node, slot, Attach(f, slot, EmptyContainer(First(v))).value))
    ensures FrameStep(Top(s), v) ==
      match StreamProject(node, v)
      case None => None
      case Some(w) => Attach(f, slot, w)
  {
    TakesInside(Top(s));
    hide NextNode, WellFormed, Shaped, Attach, StreamProject, Opens;
    var n := |s.frames| - 1;
    if Attach(f, slot, EmptyContainer(First(v))).Some? {
      var g := Attach(f, slot, EmptyContainer(First(v))).value;
      assert s.frames[n := f][n := g] == s.frames[n := g];
    }
  }

  /** Bringing the parent up to date is attaching the finished child in the first place. */
  lemma AttachThenUpdate(f: Frame, slot: Slot, empty: Value, w: Value)
    requires !slot.Root?
    ensures Attach(f, slot, empty).Some? <==> Attach(f, slot, w).Some?
    ensures Attach(f, slot, empty).Some? ==> Update(Attach(f, slot, empty).value, slot, w) == Attach(f, slot, w).value
  {
    if f.container.Obj? {
      var key := if slot.FieldSlot? then slot.output else if slot.EntrySlot? then slot.name else "";
      assert f.container.vals[key := empty][key := w] == f.container.vals[key := w];
    } else if f.container.Arr? {
      var items := f.container.items;
      assert (items + [empty])[|items| := w] == items + [w];
    }
  }

  lemma ChildReady(s: State, v: Value, node: Plan, slot: Slot, parent: Frame)
    requires Ready(s) && s.frames != [] && Opens(NonNull(node), First(v)) && (v.Arr? || v.Obj?)
    ensures
      var s2 := OpenedChild(s, v, node, slot, parent);
      Ready(s2) && s2.frames != [] && Top(s2) == Child(node, v, slot) && Shaped(Child(node, v, slot))
      && (v.Obj? ==> Top(s2).container.Obj?) && Child(node, v, slot) == Child(node, v, Root).(slot := slot)
           && Shaped(Child(node, v, Root))
  {
  }

  /** The closing event of a child whose frame has become f. */
  lemma ChildCloses(s: State, v: Value, node: Plan, slot: Slot, parent: Frame, f: Frame)
    requires Ready(s) && s.frames != [] && (v.Arr? || v.Obj?) && f.slot == slot && (f.container.Obj? <==> v.Obj?)
    ensures
      var s3 := WithTop(OpenedChild(s, v, node, slot, parent), f);
      Step(s3, Last(v)) ==
        match Close(f)
        case None => None
        case Some(w) => Some(WithTop(s, Update(parent, slot, w)))
  {
    hide Close, Update;
    var n := |s.frames| - 1;
    var s2 := OpenedChild(s, v, node, slot, parent);
    var s3 := WithTop(s2, f);
    assert s3.frames[..|s3.frames| - 1] == s.frames[n := parent];
    if Close(f).Some? {
      var g := Update(parent, slot, Close(f).value);
      assert s.frames[n := parent][n := g] == s.frames[n := g];
    }
  }

  lemma CloseSlot(f: Frame, slot: Slot)
    ensures Close(f.(slot := slot)) == Close(f)
  {
  }

  lemma ShapeOfBody(f: Frame, v: Value)
    requires WellFormed(v) && (v.Arr? || v.Obj?) && Shaped(f) && FoldBody(f, v).Some?
    ensures f.container.Obj? <==> FoldBody(f, v).value.container.Obj?
    decreases v, 0
  {
    if v.Obj? {
      ShapeOfMembers(f, v, 0);
    } else {
      ShapeOfItems(f, v, 0);
    }
  }

  lemma {:induction false} ShapeOfMembers(f: Frame, v: Value, i: nat)
    requires WellFormed(v) && v.Obj? && i <= |v.keys| && FoldMembers(f, v, i).Some?
    ensures f.container.Obj? <==> FoldMembers(f, v, i).value.container.Obj?
    decreases |v.keys| - i
  {
    hide FrameStep, WellFormed;
    FoldMembersStep(f, v, i);
    if i < |v.keys| {
      NodeKept(f.(pending := Some(v.keys[i])), v.vals[v.keys[i]]);
      ShapeOfMembers(FrameStep(f.(pending := Some(v.keys[i])), v.vals[v.keys[i]]).value, v, i + 1);
    }
  }

  lemma {:induction false} ShapeOfItems(f: Frame, v: Value, i: nat)
    requires WellFormed(v) && v.Arr? && i <= |v.items| && FoldItems(f, v, i).Some?
    ensures f.container.Obj? <==> FoldItems(f, v, i).value.container.Obj?
    decreases |v.items| - i
  {
    hide FrameStep, WellFormed;
    FoldItemsStep(f, v, i);
    if i < |v.items| {
      NodeKept(f, v.items[i]);
      ShapeOfItems(FrameStep(f, v.items[i]).value, v, i + 1);
    }
  }

  lemma RunStart(s: State, v: Value)
    requires WellFormed(v) && (v.Arr? || v.Obj?)
    ensures Run(Some(s), Events(v)) == Run(Run(Step(s, First(v)), Body(v)), [Last(v)])
  {
    hide *;
    ContainerEvents(v);
    RunFirst(s, First(v), Body(v) + [Last(v)]);
    RunAppend(Step(s, First(v)), Body(v), [Last(v)]);
  }

  lemma RootContainer(s: State, v: Value)
    requires WellFormed(v) && (v.Arr? || v.Obj?) && Ready(s) && s.frames == []
    ensures Step(s, First(v)) == if Opens(NonNull(s.root), First(v))
      then Some(s.(frames := [Child(s.root, v, Root)])) else None
    ensures Opens(NonNull(s.root), First(v)) ==>
      var s1 := s.(frames := [Child(s.root, v, Root)]);
      Ready(s1) && Top(s1) == Child(s.root, v, Root) && Shaped(Top(s1)) && (v.Obj? ==> Top(s1).container.Obj?)
        && (Top(s1).container.Obj? <==> v.Obj?)
  {
    hide WellFormed;
  }

  lemma RootCloses(s: State, v: Value, f: Frame)
    requires Ready(s) && s.frames == [] && (v.Arr? || v.Obj?) && (f.container.Obj? <==> v.Obj?)
    ensures
      var s3 := WithTop(s.(frames := [Child(s.root, v, Root)]), f);
      Step(s3, Last(v)) ==
        match Close(f)
        case None => None
        case Some(w) => Some(s.(value := Some(w)))
  {
    hide Close;
  }

  lemma DeliverAtRoot(s: State, v: Value)
    requires WellFormed(v) && s.frames == []
    ensures Deliver(s, v) == if StreamProject(s.root, v).None? then None
      else Some(s.(value := Some(StreamProject(s.root, v).value)))
  {
  }

  lemma RunRootContainer(s: State, v: Value)
    requires WellFormed(v) && (v.Arr? || v.Obj?) && Ready(s) && s.frames == []
    ensures Run(Some(s), Events(v)) == Deliver(s, v)
    decreases v, 2
  {
    hide *;
    RunStart(s, v);
    RootContainer(s, v);
    ContainerProject(s.root, v);
    DeliverAtRoot(s, v);
    if !Opens(NonNull(s.root), First(v)) {
      RunNone(Body(v));
      RunNone([Last(v)]);
    } else {
      var s1 := s.(frames := [Child(s.root, v, Root)]);
      RunBody(s1, v);
      var f := FoldBody(Child(s.root, v, Root), v);
      FoldedParts(s1, f);
      if f.None? {
        RunNone([Last(v)]);
      } else {
        ShapeOfBody(Child(s.root, v, Root), v);
        RunOne(WithTop(s1, f.value), Last(v));
        RootCloses(s, v, f.value);
      }
    }
  }

  lemma RunTakenContainer(s: State, v: Value, node: Plan, slot: Slot, f: Frame)
    requires WellFormed(v) && (v.Arr? || v.Obj?) && Ready(s) && s.frames != []
    requires NextNode(Top(s)) == Take(node, slot, f)
    ensures Run(Some(s), Events(v)) == Deliver(s, v)
    decreases v, 2
  {
    hide *;
    RunStart(s, v);
    DeliverInside(s, v);
    TakenContainer(s, v, node, slot, f);
    ContainerProject(node, v);
    FoldedParts(s, FrameStep(Top(s), v));
    TakesRoot(Top(s), node, slot, f);
    var empty := EmptyContainer(First(v));
    if !Opens(NonNull(node), First(v)) || Attach(f, slot, empty).None? {
      RunNone(Body(v));
      RunNone([Last(v)]);
      if StreamProject(node, v).Some? {
        AttachThenUpdate(f, slot, empty, StreamProject(node, v).value);
      }
    } else {
      var parent := Attach(f, slot, empty).value;
      ChildReady(s, v, node, slot, parent);
      var s2 := OpenedChild(s, v, node, slot, parent);
      RunBody(s2, v);
      SlotKeptByBody(Child(node, v, Root), v, slot);
      var g := FoldBody(Child(node, v, Root), v);
      ReslotParts(g, slot);
      FoldedParts(s2, Reslot(g, slot));
      if g.None? {
        RunNone([Last(v)]);
      } else {
        var g1 := g.value.(slot := slot);
        ShapeOfChild(node, v);
        ChildCloses(s, v, node, slot, parent, g1);
        CloseSlot(g.value, slot);
        RunOne(WithTop(s2, g1), Last(v));
        if Close(g.value).Some? {
          AttachThenUpdate(f, slot, empty, Close(g.value).value);
        }
      }
    }
  }

  lemma TakesRoot(top: Frame, node: Plan, slot: Slot, f: Frame)
    requires NextNode(top) == Take(node, slot, f)
    ensures !slot.Root?
  {
  }

  lemma ReslotParts(f: Option<Frame>, slot: Slot)
    ensures Reslot(f, slot) == if f.Some? then Some(f.value.(slot := slot)) else None
  {
  }

  lemma ShapeOfChild(node: Plan, v: Value)
    requires WellFormed(v) && (v.Arr? || v.Obj?) && Opens(NonNull(node), First(v))
    requires FoldBody(Child(node, v, Root), v).Some?
    ensures FoldBody(Child(node, v, Root), v).value.container.Obj? <==> v.Obj?
  {
    ShapeOfBody(Child(node, v, Root), v);
    hide FoldBody, WellFormed;
  }

  /** Feeding the events of a value leaves what the projection of the value leaves: it is
      delivered to the innermost open container, or finishes the builder, or is refused. */
  lemma {:induction false} RunValue(s: State, v: Value)
    requires WellFormed(v) && Ready(s)
    ensures Run(Some(s), Events(v)) == Deliver(s, v)
    decreases v, 3
  {
    hide *;
    if !v.Arr? && !v.Obj? {
      EventsShape(v);
      RunOne(s, Atom(v));
      if s.frames == [] {
        AtomAtRoot(s, v);
      } else {
        AtomInside(s, v);
      }
    } else if s.frames == [] {
      RunRootContainer(s, v);
    } else {
      match NextNode(Top(s)) {
        case Refuse =>
          RunStart(s, v);
          RefusedContainer(s, v);
          RunNone(Body(v));
          RunNone([Last(v)]);
          DeliverInside(s, v);
          FoldedParts(s, None);
        case Ignore(f) =>
          var skipping := WithTop(s, f).(skipDepth := 1);
          RunStart(s, v);
          IgnoredContainer(s, v, f);
          SkipBody(skipping, v);
          RunOne(skipping, Last(v));
          DeliverInside(s, v);
          FoldedParts(s, Some(f));
        case Take(node, slot, f) =>
          RunTakenContainer(s, v, node, slot, f);
      }
    }
  }

  // ----- the builder -----

  class ProjectedEventBuilder {
    const root: Plan
    var frames: seq<Frame>
    var skipDepth: nat
    var value: Option<Value>

    function Snapshot(): State
      reads this
    {
      State(root, frames, skipDepth, value)
    }

    constructor (root: Plan)
      ensures Snapshot() == Start(root)
    {
      this.root := root;
      frames := [];
      skipDepth := 0;
      value := None;
    }

    method Feed(e: Event) returns (ok: bool)
      modifies this
      ensures ok <==> Step(old(Snapshot()), e).Some?
      ensures ok ==> Snapshot() == Step(old(Snapshot()), e).value
    {
      if value.Some? {
        return false;
      }
      if skipDepth > 0 {
        if e.StartMap? || e.StartArray? {
          skipDepth := skipDepth + 1;
        } else if e.EndMap? || e.EndArray? {
          skipDepth := skipDepth - 1;
        }
        return true;
      }
      if e.Key? {
        if frames == [] || !frames[|frames| - 1].container.Obj? {
          return false;
        }
        frames := frames[|frames| - 1 := frames[|frames| - 1].(pending := Some(e.key))];
        return true;
      }
      if e.EndMap? || e.EndArray? {
        ok := Finish(e);
        return;
      }
      ok := Receive(e);
    }

    /** The end of the innermost container. */
    method Finish(e: Event) returns (ok: bool)
      requires value.None? && skipDepth == 0 && (e.EndMap? || e.EndArray?)
      modifies this
      ensures ok <==> End(old(Snapshot()), e).Some?
      ensures ok ==> Snapshot() == End(old(Snapshot()), e).value
    {
      if frames == [] {
        return false;
      }
      var frame := frames[|frames| - 1];
      if e.EndMap? != frame.container.Obj? {
        return false;
      }
      var closed := Close(frame);
      if closed.None? {
        return false;
      }
      frames := frames[..|frames| - 1];
      if frames == [] {
        value := closed;
      } else {
        frames := frames[|frames| - 1 := Update(frames[|frames| - 1], frame.slot, closed.value)];
      }
      return true;
    }

    /** The first event of a value. */
    method Receive(e: Event) returns (ok: bool)
      requires value.None? && skipDepth == 0 && (e.StartMap? || e.StartArray? || e.Atom?)
      modifies this
      ensures ok <==> Step(old(Snapshot()), e).Some?
      ensures ok ==> Snapshot() == Step(old(Snapshot()), e).value
    {
      hide NextNode, Dropped, ProjectAtom, Attach, Opens, Close;
      var node, slot := root, Root;
      if frames != [] {
        TakesInside(frames[|frames| - 1]);
        match NextNode(frames[|frames| - 1]) {
          case Refuse =>
            return false;
          case Ignore(f) =>
            frames := frames[|frames| - 1 := f];
            if !e.Atom? {
              skipDepth := 1;
            }
            return true;
          case Take(n, t, f) =>
            frames := frames[|frames| - 1 := f];
            node, slot := n, t;
        }
      }
      ghost var s := Snapshot();
      assert Step(old(Snapshot()), e) == Begin(s, e, node, slot);
      ok := Place(e, node, slot);
    }

    method Place(e: Event, node: Plan, slot: Slot) returns (ok: bool)
      requires (slot.Root? <==> frames == []) && (e.StartMap? || e.StartArray? || e.Atom?)
      modifies this
      ensures ok <==> Begin(old(Snapshot()), e, node, slot).Some?
      ensures ok ==> Snapshot() == Begin(old(Snapshot()), e, node, slot).value
    {
      hide NextNode, Dropped, ProjectAtom, Attach, Opens, Close;
      if e.Atom? {
        if Dropped(slot, node, e.value) {
          return true;
        }
        var projected := ProjectAtom(node, e.value);
        if projected.None? {
          return false;
        }
        if frames == [] {
          value := projected;
          return true;
        }
        var attached := Attach(frames[|frames| - 1], slot, projected.value);
        if attached.None? {
          return false;
        }
        frames := frames[|frames| - 1 := attached.value];
        return true;
      }
      if !Opens(NonNull(node), e) {
        return false;
      }
      if frames != [] {
        var attached := Attach(frames[|frames| - 1], slot, EmptyContainer(e));
        if attached.None? {
          return false;
        }
        frames := frames[|frames| - 1 := attached.value];
      }
      frames := frames + [Frame(NonNull(node), EmptyContainer(e), slot, None, 0)];
      return true;
    }
  }

  /** A fresh builder fed with a whole stream; stops at the first event it raises on. */
  method Build(root: Plan, events: seq<Event>) returns (result: Option<Value>)
    ensures result == match Run(Some(Start(root)), events) case None => None case Some(s) => s.value
  {
    var builder := new ProjectedEventBuilder(root);
    for i := 0 to |events|
      invariant Run(Some(builder.Snapshot()), events[i..]) == Run(Some(Start(root)), events)
    {
      hide Step;
      assert events[i..][1..] == events[i + 1..];
      var ok := builder.Feed(events[i]);
      if !ok {
        return None;
      }
    }
    return builder.value;
  }
}
