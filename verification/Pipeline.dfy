/** The bounded recycle pipeline: a producer fills frames and sends them in batches of two over a
    queue of one; a worker exports them and returns the frames. Each thread moves one step at a
    time; a step that would block is not taken. */
module Pipeline {
  import opened Base

  const BATCH: nat := 2
  const FRAMES: nat := 6

  /** A frame allocation with the tick it carries. */
  datatype Frame = Frame(id: nat, tick: int)

  datatype Producer =
    | Idle
    | Acquiring(tick: int)
    | Waiting(tick: int)
    | Flushing(closing: bool)
    | Joining
    | Finished
    | Broken

  datatype Worker =
    | Receiving
    | Exporting(batch: seq<Frame>, next: nat)
    | Ended
    | Failed

  datatype State = State(
    producer: Producer,
    pending: seq<Frame>,
    spares: seq<Frame>,
    made: nat,
    queue: seq<seq<Frame>>,
    returned: seq<seq<Frame>>,
    open: bool,
    worker: Worker,
    pushed: seq<int>,
    exported: seq<int>)

  /** The client calls push or finish, or one of the threads moves. */
  datatype Action = Push(tick: int) | Finish | Produce | Work(ok: bool)

  const START := State(Idle, [], [], 0, [], [], true, Receiving, [], [])

  predicate Alive(s: State) {
    s.worker.Receiving? || s.worker.Exporting?
  }

  /** The tick goes into the frame, the frame into the pending batch. */
  function Fill(s: State, frame: Frame, tick: int): State {
    var pending := s.pending + [Frame(frame.id, tick)];
    s.(pending := pending, pushed := s.pushed + [tick], producer := if |pending| == BATCH then Flushing(false)
       else Idle)
  }

  function Acquire(s: State, tick: int): State {
    if s.spares != [] then Fill(s.(spares := s.spares[..|s.spares| - 1]), s.spares[|s.spares| - 1], tick)
    else if s.returned != [] then s.(spares := s.returned[0], returned := s.returned[1..])
    else if s.made < FRAMES then Fill(s.(made := s.made + 1), Frame(s.made, 0), tick)
    else s.(producer := Waiting(tick))
  }

  function Produced(s: State): Option<State> {
    match s.producer
    case Acquiring(tick) => Some(Acquire(s, tick))
    case Waiting(tick) =>
      if s.returned != [] then Some(s.(spares := s.returned[0], returned := s.returned[1..], producer :=
                                       Acquiring(tick)))
      else if !Alive(s) then Some(s.(producer := Broken))
      else None
    case Flushing(closing) =>
      if s.pending == [] then Some(s.(producer := if closing then Joining else Idle, open := s.open && !closing))
      else if !Alive(s) then Some(s.(producer := Broken))
      else if s.queue == [] then
        Some(s.(queue := [s.pending], pending := [], producer := if closing then Joining
                else Idle, open := s.open && !closing))
      else None
    case Joining =>
      if s.worker.Ended? then Some(s.(producer := Finished))
      else if s.worker.Failed? then Some(s.(producer := Broken))
      else None
    case _ => None
  }

  function Worked(s: State, ok: bool): Option<State> {
    match s.worker
    case Receiving =>
      if s.queue != [] then Some(s.(worker := Exporting(s.queue[0], 0), queue := s.queue[1..]))
      else if !s.open then Some(s.(worker := Ended))
      else None
    case Exporting(batch, next) =>
      if next >= |batch| then Some(s.(worker := Receiving, returned := s.returned + [batch]))
      else if ok then Some(s.(worker := Exporting(batch, next + 1), exported := s.exported + [batch[next].tick]))
      else Some(s.(worker := Failed))
    case _ => None
  }

  /** None when the action is not possible, or would block. */
  function Step(s: State, action: Action): Option<State> {
    match action
    case Push(tick) => if s.producer.Idle? then Some(s.(producer := Acquiring(tick))) else None
    case Finish => if s.producer.Idle? then Some(s.(producer := Flushing(true))) else None
    case Produce => Produced(s)
    case Work(ok) => Worked(s, ok)
  }

  // ----- what every step keeps -----

  function Flatten(batches: seq<seq<Frame>>): seq<Frame> {
    if batches == [] then [] else batches[0] + Flatten(batches[1..])
  }

  function Held(worker: Worker): seq<Frame> {
    if worker.Exporting? then worker.batch else []
  }

  function Ids(frames: seq<Frame>): multiset<nat> {
    if frames == [] then multiset{} else multiset{frames[0].id} + Ids(frames[1..])
  }

  function Ticks(frames: seq<Frame>): (ticks: seq<int>)
    ensures |ticks| == |frames|
  {
    if frames == [] then [] else [frames[0].tick] + Ticks(frames[1..])
  }

  /** The identities of the first n allocations, once each. */
  function FirstIds(n: nat): multiset<nat> {
    if n == 0 then multiset{} else FirstIds(n - 1) + multiset{n - 1}
  }

  /** Everywhere a frame can be. */
  function Places(s: State): multiset<nat> {
    Ids(s.pending) + Ids(s.spares) + Ids(Flatten(s.queue)) + Ids(Held(s.worker)) + Ids(Flatten(s.returned))
  }

  predicate Batches(batches: seq<seq<Frame>>) {
    forall i :: 0 <= i < |batches| ==> 1 <= |batches[i]| <= BATCH
  }

  function Unexported(s: State): seq<Frame> {
    (if s.worker.Exporting? && s.worker.next <= |s.worker.batch| then s.worker.batch[s.worker.next..] else [])
      + Flatten(s.queue) + s.pending
  }

  predicate Sized(s: State) {
    && |s.queue| <= 1 && Batches(s.queue) && Batches(s.returned)
    && (s.worker.Exporting? ==> 1 <= |s.worker.batch| <= BATCH && s.worker.next <= |s.worker.batch|)
    && |s.pending| <= (if s.producer.Flushing? || s.producer.Broken? then BATCH else 1)
    && (s.producer.Joining? || s.producer.Finished? ==> s.pending == [] && !s.open)
    && (s.producer.Flushing? || s.producer.Idle? || s.producer.Acquiring? || s.producer.Waiting? ==> s.open)
    && s.made <= FRAMES
  }

  /** While the worker lives, every frame ever made is in exactly one place. */
  predicate FramesKept(s: State) {
    Alive(s) ==> Places(s) == FirstIds(s.made)
  }

  /** The export has a prefix of the pushed ticks; while the worker lives the rest is on its way
      in order, and when it has ended nothing is left. */
  predicate TicksKept(s: State) {
    && s.exported <= s.pushed
    && (Alive(s) ==> s.pushed == s.exported + Ticks(Unexported(s)))
    && (s.worker.Ended? ==> s.pushed == s.exported)
  }

  predicate ControlKept(s: State) {
    && (s.worker.Ended? ==>
        s.pending == [] && s.queue == [] && !s.open && (s.producer.Joining? || s.producer.Finished?))
    && (s.producer.Finished? ==> s.worker.Ended?)
    && (s.producer.Waiting? ==> !Alive(s) && s.spares == [] && s.returned == [])
    && (s.producer.Broken? ==> !Alive(s))
  }

  predicate Kept(s: State) {
    Sized(s) && FramesKept(s) && TicksKept(s) && ControlKept(s)
  }

  lemma {:induction false} IdsAppend(a: seq<Frame>, b: seq<Frame>)
    ensures Ids(a + b) == Ids(a) + Ids(b)
    ensures Ticks(a + b) == Ticks(a) + Ticks(b)
  {
    if a == [] {
      assert a + b == b;
    } else {
      assert (a + b)[1..] == a[1..] + b;
      IdsAppend(a[1..], b);
    }
  }

  lemma IdsLast(frames: seq<Frame>)
    requires frames != []
    ensures Ids(frames) == Ids(frames[..|frames| - 1]) + multiset{frames[|frames| - 1].id}
  {
    var n := |frames| - 1;
    assert frames == frames[..n] + [frames[n]];
    IdsAppend(frames[..n], [frames[n]]);
    assert [frames[n]][1..] == [];
  }

  lemma IdsPush(frames: seq<Frame>, id: nat, tick: int)
    ensures Ids(frames + [Frame(id, tick)]) == Ids(frames) + multiset{id}
    ensures Ticks(frames + [Frame(id, tick)]) == Ticks(frames) + [tick]
  {
    IdsAppend(frames, [Frame(id, tick)]);
    assert [Frame(id, tick)][1..] == [];
  }

  lemma {:induction false} FlattenAppend(a: seq<seq<Frame>>, b: seq<Frame>)
    ensures Flatten(a + [b]) == Flatten(a) + b
  {
    if a == [] {
      assert a + [b] == [b] && [b][1..] == [];
    } else {
      assert (a + [b])[1..] == a[1..] + [b];
      FlattenAppend(a[1..], b);
    }
  }

  lemma FlattenOne(batch: seq<Frame>)
    ensures Flatten([batch]) == batch && Flatten([]) == []
  {
    assert [batch][1..] == [];
  }

  lemma FlattenFirst(batches: seq<seq<Frame>>)
    requires batches != []
    ensures Ids(Flatten(batches)) == Ids(batches[0]) + Ids(Flatten(batches[1..]))
    ensures Ticks(Flatten(batches)) == Ticks(batches[0]) + Ticks(Flatten(batches[1..]))
  {
    IdsAppend(batches[0], Flatten(batches[1..]));
  }

  lemma TicksFrom(batch: seq<Frame>, i: nat)
    requires i < |batch|
    ensures Ticks(batch[i..]) == [batch[i].tick] + Ticks(batch[i + 1..])
  {
    assert batch[i..][1..] == batch[i + 1..];
  }

  lemma {:induction false} IdsCount(frames: seq<Frame>)
    ensures |Ids(frames)| == |frames|
  {
    if frames != [] {
      IdsCount(frames[1..]);
    }
  }

  lemma {:induction false} FirstIdsCount(n: nat)
    ensures |FirstIds(n)| == n
  {
    if n > 0 {
      FirstIdsCount(n - 1);
    }
  }

  /** While the worker lives, a sixth frame is always enough: the other places hold five. */
  lemma NeverShort(s: State)
    requires Kept(s) && Alive(s) && s.producer.Acquiring? && s.spares == [] && s.returned == []
    ensures s.made < 6
  {
    FirstIdsCount(s.made);
    IdsCount(s.pending);
    IdsCount(Held(s.worker));
    IdsCount(Flatten(s.queue));
    NoIds();
    if s.queue != [] {
      assert s.queue == [s.queue[0]];
      FlattenOne(s.queue[0]);
    }
    hide Ids, FirstIds, Flatten, Ticks;
    assert |Places(s)| == |s.pending| + |Flatten(s.queue)| + |Held(s.worker)|;
  }

  lemma NoIds()
    ensures Ids([]) == multiset{} && Ticks([]) == [] && Flatten([]) == []
  {
  }

  // ----- the producer -----

  lemma ProducedSized(s: State)
    requires Sized(s) && ControlKept(s) && Produced(s).Some?
    ensures Sized(Produced(s).value)
  {
  }

  lemma ProducedControl(s: State)
    requires Kept(s) && Produced(s).Some?
    ensures ControlKept(Produced(s).value)
  {
    hide FramesKept, TicksKept, Batches, Flatten, Ids, Ticks, FirstIds, Unexported, Places;
    if s.producer.Acquiring? && Alive(s) && s.spares == [] && s.returned == [] {
      NeverShort(s);
    }
  }

  lemma PlacesParts(s: State)
    ensures Places(s) == Ids(s.pending) + Ids(s.spares) + Ids(Flatten(s.queue)) + Ids(Held(s.worker))
      + Ids(Flatten(s.returned))
  {
  }

  lemma RecycledFrames(s: State, s': State, frame: Frame, tick: int)
    requires s.spares != [] && frame == s.spares[|s.spares| - 1]
    requires s'.pending == s.pending + [Frame(frame.id, tick)] && s'.spares == s.spares[..|s.spares| - 1]
    requires s'.queue == s.queue && s'.worker == s.worker && s'.returned == s.returned
    ensures Places(s') == Places(s)
  {
    hide *;
    PlacesParts(s);
    PlacesParts(s');
    IdsLast(s.spares);
    IdsPush(s.pending, frame.id, tick);
  }

  lemma ReturnedFrames(s: State, s': State)
    requires s.spares == [] && s.returned != []
    requires s'.pending == s.pending && s'.spares == s.returned[0] && s'.returned == s.returned[1..]
    requires s'.queue == s.queue && s'.worker == s.worker
    ensures Places(s') == Places(s)
  {
    hide *;
    NoIds();
    PlacesParts(s);
    PlacesParts(s');
    FlattenFirst(s.returned);
  }

  lemma NewFrames(s: State, s': State, tick: int)
    requires s'.pending == s.pending + [Frame(s.made, tick)] && s'.spares == s.spares && s'.made == s.made + 1
    requires s'.queue == s.queue && s'.worker == s.worker && s'.returned == s.returned
    requires Places(s) == FirstIds(s.made)
    ensures Places(s') == FirstIds(s'.made)
  {
    assert FirstIds(s'.made) == FirstIds(s.made) + multiset{s.made};
    hide *;
    PlacesParts(s);
    PlacesParts(s');
    IdsPush(s.pending, s.made, tick);
  }

  lemma AcquiredFrames(s: State, tick: int)
    requires FramesKept(s) && s.producer == Acquiring(tick) && Alive(s)
    ensures FramesKept(Acquire(s, tick))
  {
    hide Ids, FirstIds, Flatten, Places;
    if s.spares != [] {
      RecycledFrames(s, Acquire(s, tick), s.spares[|s.spares| - 1], tick);
    } else if s.returned != [] {
      ReturnedFrames(s, Acquire(s, tick));
    } else if s.made < FRAMES {
      NewFrames(s, Acquire(s, tick), tick);
    } else {
      PlacesParts(s);
      PlacesParts(Acquire(s, tick));
    }
  }

  lemma SentFrames(s: State, s': State)
    requires s.queue == [] && s'.queue == [s.pending] && s'.pending == []
    requires s'.spares == s.spares && s'.worker == s.worker && s'.returned == s.returned
    ensures Places(s') == Places(s)
    ensures Unexported(s') == Unexported(s)
  {
    FlattenOne(s.pending);
    NoIds();
    hide Ids, Flatten;
  }

  lemma ProducedFrames(s: State)
    requires Kept(s) && Produced(s).Some?
    ensures FramesKept(Produced(s).value)
  {
    hide Ids, FirstIds, Flatten, Sized, TicksKept;
    if Alive(s) {
      if s.producer.Acquiring? {
        AcquiredFrames(s, s.producer.tick);
      } else if s.producer.Flushing? && s.pending != [] && s.queue == [] {
        SentFrames(s, Produced(s).value);
      }
    }
  }

  lemma AcquiredTicks(s: State, tick: int)
    requires TicksKept(s) && s.producer == Acquiring(tick)
    ensures TicksKept(Acquire(s, tick)) || (s.worker.Ended? && Acquire(s, tick).pushed != s.pushed)
  {
    hide Ids, Ticks, Flatten, FirstIds;
    var s' := Acquire(s, tick);
    if s'.pending != s.pending {
      var frame := s'.pending[|s.pending|];
      assert s'.pending == s.pending + [frame] && frame.tick == tick;
      IdsPush(Unexported(s), frame.id, tick);
      assert Unexported(s') == Unexported(s) + [frame];
    } else {
      assert Unexported(s') == Unexported(s);
    }
  }

  lemma ProducedTicks(s: State)
    requires Kept(s) && Produced(s).Some?
    ensures TicksKept(Produced(s).value)
  {
    hide Ids, FirstIds, Flatten, Ticks, Sized, FramesKept, Unexported;
    if s.producer.Acquiring? {
      AcquiredTicks(s, s.producer.tick);
    } else if s.producer.Flushing? && s.pending != [] && Alive(s) && s.queue == [] {
      SentFrames(s, Produced(s).value);
    } else if Alive(s) {
      UnexportedSame(s, Produced(s).value);
    }
  }

  lemma UnexportedSame(s: State, s': State)
    requires s.pending == s'.pending && s.queue == s'.queue && s.worker == s'.worker
    ensures Unexported(s) == Unexported(s')
  {
  }

  // ----- the worker -----

  lemma WorkedSized(s: State, ok: bool)
    requires Sized(s) && Worked(s, ok).Some?
    ensures Sized(Worked(s, ok).value)
  {
  }

  lemma WorkedControl(s: State, ok: bool)
    requires Kept(s) && Worked(s, ok).Some?
    ensures ControlKept(Worked(s, ok).value)
  {
    hide FramesKept, TicksKept, Batches;
  }

  lemma WorkedFrames(s: State, ok: bool)
    requires Kept(s) && Worked(s, ok).Some?
    ensures FramesKept(Worked(s, ok).value)
  {
    NoIds();
    if s.worker.Receiving? && s.queue != [] {
      FlattenFirst(s.queue);
    } else if s.worker.Exporting? && s.worker.next >= |s.worker.batch| {
      FlattenAppend(s.returned, s.worker.batch);
      IdsAppend(Flatten(s.returned), s.worker.batch);
    }
    hide Ids, FirstIds, Flatten, Sized, TicksKept;
  }

  lemma WorkedTicks(s: State, ok: bool)
    requires Kept(s) && Worked(s, ok).Some?
    ensures TicksKept(Worked(s, ok).value)
  {
    hide Ids, FirstIds;
    NoIds();
    var s' := Worked(s, ok).value;
    if s.worker.Receiving? {
      if s.queue != [] {
        FlattenOne(s.queue[0]);
        assert s.queue == [s.queue[0]] && s.queue[1..] == [];
        hide Flatten, Ticks;
        assert s.queue[0][0..] == s.queue[0];
        assert Unexported(s') == Unexported(s);
      } else if !s.open {
        hide Ticks;
        assert Unexported(s) == [];
      }
    } else if s.worker.Exporting? {
      ExportedTicks(s, ok);
    }
  }

  lemma ExportedTicks(s: State, ok: bool)
    requires Sized(s) && TicksKept(s) && s.worker.Exporting? && Worked(s, ok).Some?
    ensures TicksKept(Worked(s, ok).value)
  {
    hide Ids, FirstIds, Ticks, Flatten;
    var s' := Worked(s, ok).value;
    var batch, next, rest := s.worker.batch, s.worker.next, Flatten(s.queue) + s.pending;
    if next >= |batch| {
      assert batch[next..] == [];
      assert Unexported(s') == Unexported(s);
    } else {
      TicksFrom(batch, next);
      IdsAppend(batch[next..], rest);
      IdsAppend(batch[next + 1..], rest);
      assert Unexported(s) == batch[next..] + rest;
      assert s.pushed == s.exported + ([batch[next].tick] + Ticks(batch[next + 1..]) + Ticks(rest));
      assert s.pushed == (s.exported + [batch[next].tick]) + (Ticks(batch[next + 1..]) + Ticks(rest));
      if ok {
        assert Unexported(s') == batch[next + 1..] + rest;
      }
    }
  }

  // ----- every run -----

  lemma StepKept(s: State, action: Action)
    requires Kept(s) && Step(s, action).Some?
    ensures Kept(Step(s, action).value)
  {
    match action {
      case Produce =>
        ProducedSized(s);
        ProducedControl(s);
        ProducedFrames(s);
        ProducedTicks(s);
        hide Sized, ControlKept, FramesKept, TicksKept, Produced;
      case Work(ok) =>
        WorkedSized(s, ok);
        WorkedControl(s, ok);
        WorkedFrames(s, ok);
        WorkedTicks(s, ok);
        hide Sized, ControlKept, FramesKept, TicksKept, Worked;
      case _ =>
    }
  }

  lemma StartKept()
    ensures Kept(START)
  {
  }

  function Run(s: State, actions: seq<Action>): Option<State>
    decreases actions
  {
    if actions == [] then Some(s)
    else if Step(s, actions[0]).None? then None
    else Run(Step(s, actions[0]).value, actions[1..])
  }

  lemma {:induction false} RunKept(s: State, actions: seq<Action>)
    requires Kept(s) && Run(s, actions).Some?
    ensures Kept(Run(s, actions).value)
    decreases actions
  {
    if actions != [] {
      StepKept(s, actions[0]);
      RunKept(Step(s, actions[0]).value, actions[1..]);
    }
  }

  /** The ticks the client has pushed, in order. */
  function Given(actions: seq<Action>): seq<int> {
    if actions == [] then []
    else (if actions[0].Push? then [actions[0].tick] else []) + Given(actions[1..])
  }

  /** The tick of a push under way, which no frame carries yet. */
  function Carried(producer: Producer): seq<int> {
    match producer
    case Acquiring(tick) => [tick]
    case Waiting(tick) => [tick]
    case _ => []
  }

  /** Nothing pushed is lost or altered on its way into a frame, unless the pipeline broke. */
  ghost predicate Follows(s: State, before: seq<int>, given: seq<int>, end: State) {
    && (!end.producer.Broken? ==> end.pushed + Carried(end.producer) == before + given)
    && end.pushed <= before + given
    && (s.producer.Broken? ==> end.producer.Broken?)
  }

  lemma StepFollows(s: State, action: Action)
    requires Kept(s) && Step(s, action).Some?
    ensures Follows(s, s.pushed + Carried(s.producer), if action.Push? then [action.tick]
                    else [], Step(s, action).value)
  {
    hide FramesKept, Batches;
  }

  lemma FollowsOn(s: State, before: seq<int>, given: seq<int>, mid: State, more: seq<int>, end: State)
    requires Follows(s, before, given, mid) && Follows(mid, mid.pushed + Carried(mid.producer), more, end)
    requires mid.producer.Broken? ==> more == []
    ensures Follows(s, before, given + more, end)
  {
    assert before + (given + more) == (before + given) + more;
  }

  lemma {:induction false} RunFollows(s: State, actions: seq<Action>)
    requires Kept(s) && Run(s, actions).Some?
    ensures Follows(s, s.pushed + Carried(s.producer), Given(actions), Run(s, actions).value)
    ensures s.producer.Broken? ==> Given(actions) == []
    decreases actions
  {
    if actions == [] {
      assert s.pushed + Carried(s.producer) + [] == s.pushed + Carried(s.producer);
    } else {
      var given, next := if actions[0].Push? then [actions[0].tick] else [], Step(s, actions[0]).value;
      StepKept(s, actions[0]);
      StepFollows(s, actions[0]);
      RunFollows(next, actions[1..]);
      if s.producer.Broken? {
        BrokenTakesNothing(s, actions[0]);
      }
      hide Step, Follows, Kept, Carried;
      FollowsOn(s, s.pushed + Carried(s.producer), given, next, Given(actions[1..]), Run(s, actions).value);
    }
  }

  lemma BrokenTakesNothing(s: State, action: Action)
    requires Step(s, action).Some? && s.producer.Broken?
    ensures !action.Push? && Step(s, action).value.producer.Broken?
  {
  }

  lemma NotFailed(s: State, action: Action)
    requires Step(s, action).Some? && !s.worker.Failed? && (action.Work? ==> action.ok)
    ensures !Step(s, action).value.worker.Failed?
  {
  }

  /** A pipeline breaks only when an export has failed. */
  lemma {:induction false} NeverFails(s: State, actions: seq<Action>)
    requires Kept(s) && Run(s, actions).Some? && !s.worker.Failed?
    requires forall i :: 0 <= i < |actions| && actions[i].Work? ==> actions[i].ok
    ensures !Run(s, actions).value.worker.Failed?
    decreases actions
  {
    if actions != [] {
      StepKept(s, actions[0]);
      hide Kept;
      NotFailed(s, actions[0]);
      hide Step;
      NeverFails(Step(s, actions[0]).value, actions[1..]);
    }
  }

  /** In every interleaving: at most six frames are made, and while the worker lives each of them
      is in exactly one place; at most one batch, of one or two frames, is under way; the export has
      received a prefix of the pushed ticks in order, and all of them once finish has succeeded. */
  lemma PipelineSafety(actions: seq<Action>)
    requires Run(START, actions).Some?
    ensures
      var end := Run(START, actions).value;
      && end.made <= 6
      && (Alive(end) ==> Places(end) == FirstIds(end.made))
      && |end.queue| <= 1 && (end.queue != [] ==> 1 <= |end.queue[0]| <= 2)
      && end.exported <= Given(actions)
      && (end.producer.Finished? ==> end.exported == Given(actions))
      && (end.producer.Broken? ==> end.worker.Failed?)
      && (!end.producer.Broken? ==> end.pushed + Carried(end.producer) == Given(actions))
      && ((forall i :: 0 <= i < |actions| && actions[i].Work? ==> actions[i].ok) ==> !end.worker.Failed?)
  {
    StartKept();
    RunKept(START, actions);
    RunFollows(START, actions);
    assert START.pushed + Carried(START.producer) + Given(actions) == Given(actions);
    if forall i :: 0 <= i < |actions| && actions[i].Work? ==> actions[i].ok {
      NeverFails(START, actions);
    }
    hide Run, Step, Places, FirstIds, Given;
  }

  // ----- progress -----

  /** Whenever a call is under way, one of the threads can move. */
  lemma NeverStuck(s: State)
    requires Kept(s) && s.producer !in {Idle, Finished, Broken}
    ensures Produced(s).Some? || forall ok :: Worked(s, ok).Some?
  {
    hide FramesKept, TicksKept, Batches;
  }

  /** Work left: frames still to fill, send, take, export and return. */
  function Weight(batches: seq<seq<Frame>>): nat {
    if batches == [] then 0 else 2 + 3 * |batches[0]| + Weight(batches[1..])
  }

  function Measure(s: State): nat {
    6 * |s.pending| + Weight(s.queue)
    + (match s.worker
       case Receiving => 1
       case Exporting(batch, next) => 2 + 3 * (if next <= |batch| then |batch| - next else 0)
       case _ => 0)
    + (match s.producer
       case Acquiring(_) => if s.spares == [] then 22 else 20
       case Waiting(_) => 21
       case Flushing(_) => 5
       case Joining => 1
       case _ => 0)
  }

  /** A step of either thread leaves less to do, so every call ends in finitely many steps,
      whatever the scheduling. */
  lemma Progress(s: State, action: Action)
    requires Kept(s) && Step(s, action).Some? && (action.Produce? || action.Work?)
    ensures Measure(Step(s, action).value) < Measure(s)
  {
    hide FramesKept, TicksKept, Batches, Weight, Sized, ControlKept, Measure, Produced, Worked;
    if action.Work? {
      LessToExport(s, action.ok);
    } else {
      LessToProduce(s);
    }
  }

  lemma WeightParts(batches: seq<seq<Frame>>)
    ensures batches == [] ==> Weight(batches) == 0
    ensures batches != [] ==> Weight(batches) == 2 + 3 * |batches[0]| + Weight(batches[1..])
  {
  }

  lemma LessToExport(s: State, ok: bool)
    requires Sized(s) && Worked(s, ok).Some?
    ensures Measure(Worked(s, ok).value) < Measure(s)
  {
    hide Batches, Weight;
    WeightParts(s.queue);
  }

  lemma LessToProduce(s: State)
    requires Sized(s) && ControlKept(s) && Produced(s).Some?
    ensures Measure(Produced(s).value) < Measure(s)
  {
    hide Batches, Weight;
    WeightParts([s.pending]);
    assert [s.pending][1..] == [];
    WeightParts([]);
    ReturnedNotEmpty(s);
  }

  lemma ReturnedNotEmpty(s: State)
    requires Sized(s)
    ensures s.returned != [] ==> s.returned[0] != []
  {
  }
}
