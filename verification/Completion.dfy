/** The write-once completion manifest: workers, retries and crashes around one stored callback
    per upload and generation. Every call to the store or to the application is one step. */
module Completion {
  import opened Base

  datatype Key = Key(uploadId: string, generation: string)

  datatype Target = Target(bucket: string, key: string)

  /** What has to be said about a finished replay, and what to delete once it has been said. */
  datatype Manifest = Manifest(key: Key, mode: string, sourceHash: string, path: string, payload: string,
                               cleanup: Option<Target>)

  datatype Kind = ReplayParser | FilmWorker

  datatype Expectation = Expectation(mode: string, sourceHash: Option<string>, path: Option<string>)

  datatype Pc =
    | List | LoadExisting | Build | Put | ListAgain | LoadPersisted | Dispatch | Delete | Done
    | Report | Copy | Discard | Rejected
    | Stopped

  datatype Worker =
    Worker(kind: Kind, key: Key, source: Target, expected: Expectation, pc: Pc, own: Option<Manifest>,
           loaded: Option<Manifest>)

  /** What the application and the source bucket see: callbacks, the cleanup a manifest asks for, and
      the source of an upload that cannot be processed, copied aside and then deleted. */
  datatype Event =
    | Called(worker: nat, key: Key, path: string, payload: string, acknowledged: bool)
    | Deleted(worker: nat, key: Key, target: Target)
    | Copied(worker: nat, target: Target)
    | Discarded(worker: nat, target: Target)

  datatype World = World(store: map<Key, Manifest>, workers: map<nat, Worker>, events: seq<Event>)

  /** The choice of an advance: a manifest built from the upload, an upload that cannot be
      processed, a missing object on download, a call that fails or is acknowledged, a crash. */
  datatype Choice = Proceed | Built(manifest: Manifest) | Unprocessable | Missing | Refused | Crash

  datatype Action = Begin(id: nat, kind: Kind, key: Key, source: Target, expected: Expectation) | Advance(id: nat,
      choice: Choice)

  function Set(w: World, id: nat, worker: Worker): World {
    w.(workers := w.workers[id := worker])
  }

  function Goto(worker: Worker, pc: Pc): Worker {
    worker.(pc := pc)
  }

  /** The identity checks on a loaded manifest; the film worker also pins the path and refuses a
      cleanup object. */
  predicate Accepts(worker: Worker, m: Manifest) {
    && m.key == worker.key
    && m.mode == worker.expected.mode
    && (worker.expected.sourceHash.Some? ==> m.sourceHash == worker.expected.sourceHash.value)
    && (worker.kind.FilmWorker? ==> m.cleanup.None? && worker.expected.path == Some(m.path))
  }

  const INITIAL := "initial"

  /** A film worker never asks for a cleanup; the replay parser asks to delete the source of a new
      upload, whose identity it may learn only from the download. */
  predicate Buildable(worker: Worker, m: Manifest) {
    && m.mode == worker.expected.mode
    && m.cleanup == (if worker.kind.ReplayParser? && m.mode == INITIAL then Some(worker.source) else None)
    && (worker.kind.FilmWorker? || m.mode != INITIAL ==> m.key == worker.key)
  }

  function Load(w: World, id: nat, worker: Worker, choice: Choice): World {
    if worker.key !in w.store || choice.Missing? then
      Set(w, id, Goto(worker, if worker.kind.ReplayParser? && worker.pc == LoadExisting then Build else Stopped))
    else
      var m := w.store[worker.key];
      if !Accepts(worker, m) || (worker.pc == LoadPersisted && worker.own != Some(m))
        then Set(w, id, Goto(worker, Stopped))
      else Set(w, id, Goto(worker.(loaded := Some(m)), Dispatch))
  }

  function Call(w: World, id: nat, worker: Worker, choice: Choice): World
    requires worker.loaded.Some?
  {
    var m := worker.loaded.value;
    var called := w.(events := w.events + [Called(id, worker.key, m.path, m.payload, !choice.Refused?)]);
    Set(called, id, Goto(worker, if choice.Refused? then Stopped else if m.cleanup.Some? then Delete else Done))
  }

  function Move(w: World, id: nat, worker: Worker, choice: Choice): World {
    match worker.pc
    case List =>
      Set(w, id, Goto(worker, if worker.key in w.store then LoadExisting else Build))
    case LoadExisting => Load(w, id, worker, choice)
    case Build =>
      if choice.Built? && Buildable(worker, choice.manifest) then
        Set(w, id, Goto(worker.(own := Some(choice.manifest), key := choice.manifest.key), Put))
      else Set(w, id, Goto(worker, if choice.Unprocessable? && worker.kind.ReplayParser? then Report else Stopped))
    case Put =>
      if worker.own.None? then Set(w, id, Goto(worker, Stopped))
      else
        // A put of an existing key fails its precondition, and one that meets another put is
        // refused as a conflict; the worker ignores both.
        var stored := if worker.key in w.store || choice.Refused? then w.store
          else w.store[worker.key := worker.own.value];
        Set(w.(store := stored), id, Goto(worker, if worker.kind.ReplayParser? then LoadPersisted else ListAgain))
    case ListAgain =>
      Set(w, id, Goto(worker, if worker.key in w.store then LoadExisting else Stopped))
    case LoadPersisted => Load(w, id, worker, choice)
    case Dispatch => if worker.loaded.Some? then Call(w, id, worker, choice) else Set(w, id, Goto(worker, Stopped))
    case Delete =>
      if worker.loaded.Some? && worker.loaded.value.cleanup.Some? then
        Set(w.(events := w.events + [Deleted(id, worker.key, worker.loaded.value.cleanup.value)]), id,
            Goto(worker, Done))
      else Set(w, id, Goto(worker, Stopped))
    case Report =>
      // Only a new upload is moved aside; a rebuild leaves its source alone.
      Set(w, id, Goto(worker, if choice.Refused? || worker.expected.mode != INITIAL then Stopped else Copy))
    case Copy =>
      if choice.Refused? then Set(w, id, Goto(worker, Stopped))
      else Set(w.(events := w.events + [Copied(id, worker.source)]), id, Goto(worker, Discard))
    case Discard => Set(w.(events := w.events + [Discarded(id, worker.source)]), id, Goto(worker, Rejected))
    case Done => w
    case Rejected => w
    case Stopped => w
  }

  function Step(w: World, action: Action): World {
    match action
    case Begin(id, kind, key, source, expected) =>
      if id in w.workers then w else Set(w, id, Worker(kind, key, source, expected, List, None, None))
    case Advance(id, choice) =>
      if id !in w.workers then w
      else if choice.Crash? then
        if w.workers[id].pc in {Done, Rejected} then w else Set(w, id, Goto(w.workers[id], Stopped))
      else Move(w, id, w.workers[id], choice)
  }

  function After(w: World, actions: seq<Action>): World
    decreases actions
  {
    if actions == [] then w else After(Step(w, actions[0]), actions[1..])
  }

  predicate Initial(w: World) {
    w.workers == map[] && w.events == [] && forall key :: key in w.store ==> w.store[key].key == key
  }

  // ----- what every step keeps -----

  /** The worker's manifest is the stored one, and what it did with it is on record. */
  ghost predicate WorkerKept(w: World, id: nat, worker: Worker) {
    && (worker.loaded.Some? ==> worker.key in w.store && w.store[worker.key] == worker.loaded.value)
    && (worker.own.Some? ==> worker.own.value.key == worker.key)
    && (worker.pc.Dispatch? ==> worker.loaded.Some?)
    && (worker.pc.Delete? || worker.pc.Done? ==> worker.loaded.Some? && Acknowledged(w, id, worker.key, |w.events|))
    && (worker.pc !in {Dispatch, Delete, Done, Stopped} ==> worker.loaded.None?)
    && (worker.pc !in {Delete, Done, Stopped} ==> Silent(w, id, |w.events|))
    && (worker.pc.Discard? || worker.pc.Rejected? ==> CopiedBefore(w, id, worker.source, |w.events|))
    && (worker.pc.Rejected? ==> Discards(w, id, worker.source))
    && (worker.loaded.Some? ==> Accepts(worker, worker.loaded.value))
    && (worker.loaded.Some? && worker.own.Some? && worker.kind.ReplayParser? ==> worker.loaded == worker.own)
    && (worker.own.Some? ==> worker.pc !in {List, Build, Report, Copy, Discard, Rejected})
    && (worker.own.Some? && worker.kind.ReplayParser? ==> worker.pc != LoadExisting && worker.pc != ListAgain)
    && (worker.pc.Delete? ==> worker.loaded.value.cleanup.Some?)
    && (worker.pc.Done? && worker.loaded.value.cleanup.Some? ==>
          Deletes(w, id, worker.key, worker.loaded.value.cleanup.value))
  }

  /** The worker has deleted what the manifest of the key asks to delete. */
  ghost predicate Deletes(w: World, id: nat, key: Key, target: Target) {
    exists i :: 0 <= i < |w.events| && w.events[i] == Deleted(id, key, target)
  }

  ghost predicate Discards(w: World, id: nat, target: Target) {
    exists i :: 0 <= i < |w.events| && w.events[i] == Discarded(id, target)
  }

  /** Among the first n events there is no callback of the worker. */
  ghost predicate Silent(w: World, id: nat, n: nat)
    requires n <= |w.events|
  {
    forall i :: 0 <= i < n && w.events[i].Called? ==> w.events[i].worker != id
  }

  ghost predicate CopiedBefore(w: World, id: nat, target: Target, n: nat)
    requires n <= |w.events|
  {
    exists i :: 0 <= i < n && w.events[i] == Copied(id, target)
  }

  /** The worker's call with the stored path and payload was acknowledged before event n. */
  ghost predicate Acknowledged(w: World, id: nat, key: Key, n: nat)
    requires n <= |w.events|
  {
    key in w.store && exists i ::
      && 0 <= i < n
      && w.events[i] == Called(id, key, w.store[key].path, w.store[key].payload, true)
  }

  ghost predicate EventKept(w: World, n: nat)
    requires n < |w.events|
  {
    match w.events[n]
    case Called(_, key, path, payload, _) => key in w.store && path == w.store[key].path
      && payload == w.store[key].payload
    case Deleted(id, key, target) => key in w.store && w.store[key].cleanup == Some(target)
      && Acknowledged(w, id, key, n)
    case Copied(id, target) => true
    case Discarded(id, target) => CopiedBefore(w, id, target, n) && RejectedBy(w, id, target)
  }

  /** The worker has given up on its source for good. */
  ghost predicate RejectedBy(w: World, id: nat, target: Target) {
    id in w.workers && w.workers[id].pc.Rejected? && w.workers[id].source == target
  }

  ghost predicate Kept(w: World) {
    && (forall key :: key in w.store ==> w.store[key].key == key)
    && (forall id :: id in w.workers ==> WorkerKept(w, id, w.workers[id]))
    && (forall n :: 0 <= n < |w.events| ==> EventKept(w, n))
    && (forall n :: 0 <= n < |w.events| ==> w.events[n].worker in w.workers)
  }

  /** The store only gains keys, the events only grow, and a worker that has given up on its
      source stays so. */
  ghost predicate Extends(w: World, w': World) {
    && (forall key :: key in w.store ==> key in w'.store && w'.store[key] == w.store[key])
    && |w.events| <= |w'.events| && w'.events[..|w.events|] == w.events
    && (forall id :: id in w.workers ==>
        id in w'.workers && (w.workers[id].pc.Rejected? ==> w'.workers[id] == w.workers[id]))
  }

  /** Everything new on record was done by one worker. */
  ghost predicate NewBy(w: World, w': World, id: nat) {
    forall n :: |w.events| <= n < |w'.events| ==> w'.events[n].worker == id
  }

  lemma OldEvent(w: World, w': World, n: nat)
    requires Extends(w, w') && n < |w.events|
    ensures w'.events[n] == w.events[n]
  {
    assert w'.events[..|w.events|][n] == w'.events[n];
  }

  lemma StillAcknowledged(w: World, w': World, id: nat, key: Key, n: nat, n': nat)
    requires Extends(w, w') && n <= |w.events| && n <= n' <= |w'.events| && Acknowledged(w, id, key, n)
    ensures Acknowledged(w', id, key, n')
  {
    var i :| 0 <= i < n && w.events[i] == Called(id, key, w.store[key].path, w.store[key].payload, true);
    OldEvent(w, w', i);
  }

  lemma StillCopied(w: World, w': World, id: nat, target: Target, n: nat, n': nat)
    requires Extends(w, w') && n <= |w.events| && n <= n' <= |w'.events| && CopiedBefore(w, id, target, n)
    ensures CopiedBefore(w', id, target, n')
  {
    var i :| 0 <= i < n && w.events[i] == Copied(id, target);
    OldEvent(w, w', i);
  }

  lemma StillDeletes(w: World, w': World, id: nat)
    requires Extends(w, w')
    ensures forall key, target :: Deletes(w, id, key, target) ==> Deletes(w', id, key, target)
    ensures forall target :: Discards(w, id, target) ==> Discards(w', id, target)
  {
    forall key, target | Deletes(w, id, key, target) ensures Deletes(w', id, key, target) {
      var i :| 0 <= i < |w.events| && w.events[i] == Deleted(id, key, target);
      OldEvent(w, w', i);
    }
    forall target | Discards(w, id, target) ensures Discards(w', id, target) {
      var i :| 0 <= i < |w.events| && w.events[i] == Discarded(id, target);
      OldEvent(w, w', i);
    }
  }

  lemma StillSilent(w: World, w': World, id: nat)
    requires Extends(w, w') && Silent(w, id, |w.events|)
    requires forall n :: |w.events| <= n < |w'.events| ==> w'.events[n].worker != id || !w'.events[n].Called?
    ensures Silent(w', id, |w'.events|)
  {
    forall i | 0 <= i < |w'.events| && w'.events[i].Called? ensures w'.events[i].worker != id {
      if i < |w.events| {
        OldEvent(w, w', i);
      }
    }
  }

  lemma WorkerStillKept(w: World, w': World, id: nat, worker: Worker)
    requires Extends(w, w') && WorkerKept(w, id, worker)
    requires forall n :: |w.events| <= n < |w'.events| ==> w'.events[n].worker != id || !w'.events[n].Called?
    ensures WorkerKept(w', id, worker)
  {
    if worker.pc.Delete? || worker.pc.Done? {
      StillAcknowledged(w, w', id, worker.key, |w.events|, |w'.events|);
    }
    if worker.pc.Discard? || worker.pc.Rejected? {
      StillCopied(w, w', id, worker.source, |w.events|, |w'.events|);
    }
    if worker.pc !in {Delete, Done, Stopped} {
      StillSilent(w, w', id);
    }
    StillDeletes(w, w', id);
    hide Deletes, Discards, Accepts, Silent, Acknowledged, CopiedBefore;
  }

  lemma EventStillKept(w: World, w': World, n: nat)
    requires Extends(w, w') && n < |w.events| && EventKept(w, n)
    ensures EventKept(w', n)
  {
    OldEvent(w, w', n);
    match w.events[n]
    case Deleted(id, key, _) =>
      StillAcknowledged(w, w', id, key, n, n);
    case Discarded(id, target) =>
      StillCopied(w, w', id, target, n, n);
    case _ =>
  }

  /** One worker moved on, over a store and a record that at most grew, the latter by its own doing. */
  lemma SetKept(w: World, w': World, id: nat, worker: Worker)
    requires Kept(w) && Extends(w, w') && NewBy(w, w', id) && w'.workers == w.workers[id := worker]
    requires forall key :: key in w'.store ==> w'.store[key].key == key
    requires WorkerKept(w', id, worker)
    requires forall n :: |w.events| <= n < |w'.events| ==> EventKept(w', n)
    ensures Kept(w')
  {
    forall other | other in w'.workers ensures WorkerKept(w', other, w'.workers[other]) {
      if other != id {
        WorkerStillKept(w, w', other, w.workers[other]);
      }
    }
    forall n | 0 <= n < |w'.events| ensures EventKept(w', n) && w'.events[n].worker in w'.workers {
      if n < |w.events| {
        OldEvent(w, w', n);
        EventStillKept(w, w', n);
      }
    }
  }

  lemma LoadKept(w: World, id: nat, worker: Worker, choice: Choice)
    requires Kept(w) && id in w.workers && w.workers[id] == worker && worker.pc in {LoadExisting, LoadPersisted}
    ensures Kept(Load(w, id, worker, choice)) && Extends(w, Load(w, id, worker, choice))
  {
    assert WorkerKept(w, id, worker);
    assert forall key :: key in w.store ==> w.store[key].key == key;
    var w' := Load(w, id, worker, choice);
    assert w'.events[..|w.events|] == w.events;
    Loaded(w, id, worker, choice);
    SameRecord(w, w', id, w'.workers[id]);
    hide WorkerKept, Accepts;
    SetKept(w, w', id, w'.workers[id]);
  }

  lemma Loaded(w: World, id: nat, worker: Worker, choice: Choice)
    requires WorkerKept(w, id, worker) && worker.pc in {LoadExisting, LoadPersisted}
    ensures
      var w' := Load(w, id, worker, choice);
      && w'.store == w.store && w'.events == w.events && id in w'.workers
      && w'.workers == w.workers[id := w'.workers[id]] && WorkerKept(w, id, w'.workers[id])
  {
    hide Silent, Acknowledged, CopiedBefore, Deletes, Discards;
  }

  lemma PutKept(w: World, id: nat, worker: Worker, choice: Choice)
    requires Kept(w) && id in w.workers && w.workers[id] == worker && worker.pc == Put
    ensures Kept(Move(w, id, worker, choice)) && Extends(w, Move(w, id, worker, choice))
  {
    assert WorkerKept(w, id, worker);
    var w' := Move(w, id, worker, choice);
    assert w'.events[..|w.events|] == w.events;
    SetKept(w, w', id, w'.workers[id]);
  }

  lemma CallKept(w: World, id: nat, worker: Worker, choice: Choice)
    requires Kept(w) && id in w.workers && w.workers[id] == worker && worker.pc == Dispatch
    ensures Kept(Move(w, id, worker, choice)) && Extends(w, Move(w, id, worker, choice))
  {
    assert WorkerKept(w, id, worker);
    var w' := Call(w, id, worker, choice);
    assert w'.events[..|w.events|] == w.events;
    assert w'.events[|w.events|].Called?;
    SetKept(w, w', id, w'.workers[id]);
  }

  lemma DeleteKept(w: World, id: nat, worker: Worker, choice: Choice)
    requires Kept(w) && id in w.workers && w.workers[id] == worker && worker.pc == Delete
    ensures Kept(Move(w, id, worker, choice)) && Extends(w, Move(w, id, worker, choice))
  {
    assert WorkerKept(w, id, worker);
    var w' := Move(w, id, worker, choice);
    assert w'.events[..|w.events|] == w.events;
    StillAcknowledged(w, w', id, worker.key, |w.events|, |w.events|);
    StillAcknowledged(w, w', id, worker.key, |w.events|, |w'.events|);
    assert w'.events[|w.events|] == Deleted(id, worker.key, worker.loaded.value.cleanup.value);
    SetKept(w, w', id, w'.workers[id]);
  }

  /** An upload that cannot be processed: its source is copied aside, then deleted. */
  lemma AsideKept(w: World, id: nat, worker: Worker, choice: Choice)
    requires Kept(w) && id in w.workers && w.workers[id] == worker && worker.pc in {Copy, Discard}
    ensures Kept(Move(w, id, worker, choice)) && Extends(w, Move(w, id, worker, choice))
  {
    assert WorkerKept(w, id, worker);
    var w' := Move(w, id, worker, choice);
    assert w'.events[..|w.events|] == w.events;
    StillSilent(w, w', id);
    if worker.pc == Discard {
      StillCopied(w, w', id, worker.source, |w.events|, |w.events|);
      StillCopied(w, w', id, worker.source, |w.events|, |w'.events|);
      assert w'.events[|w.events|] == Discarded(id, worker.source);
    } else if !choice.Refused? {
      assert w'.events[|w.events|] == Copied(id, worker.source);
    }
    SetKept(w, w', id, w'.workers[id]);
  }

  lemma StepKept(w: World, action: Action)
    requires Kept(w)
    ensures Kept(Step(w, action)) && Extends(w, Step(w, action))
  {
    assert w.events[..|w.events|] == w.events;
    match action
    case Begin(id, kind, key, source, expected) =>
      if id !in w.workers {
        SetKept(w, Step(w, action), id, Worker(kind, key, source, expected, List, None, None));
      }
    case Advance(id, choice) =>
      if id in w.workers {
        AdvanceKept(w, id, choice);
      }
  }

  lemma AdvanceKept(w: World, id: nat, choice: Choice)
    requires Kept(w) && id in w.workers
    ensures Kept(Step(w, Advance(id, choice))) && Extends(w, Step(w, Advance(id, choice)))
  {
    var worker := w.workers[id];
    if choice.Crash? || worker.pc in {List, Build, ListAgain, Report, Done, Rejected, Stopped} {
      QuietKept(w, id, choice);
    } else {
      hide Kept, Extends, Load, Call;
      if worker.pc == Put {
        PutKept(w, id, worker, choice);
      } else if worker.pc == Dispatch {
        CallKept(w, id, worker, choice);
      } else if worker.pc == Delete {
        DeleteKept(w, id, worker, choice);
      } else if worker.pc in {Copy, Discard} {
        AsideKept(w, id, worker, choice);
      } else {
        LoadKept(w, id, worker, choice);
      }
    }
  }

  /** Steps that touch neither the store nor the record. */
  lemma QuietKept(w: World, id: nat, choice: Choice)
    requires Kept(w) && id in w.workers
    requires choice.Crash? || w.workers[id].pc in {List, Build, ListAgain, Report, Done, Rejected, Stopped}
    ensures Kept(Step(w, Advance(id, choice))) && Extends(w, Step(w, Advance(id, choice)))
  {
    assert WorkerKept(w, id, w.workers[id]);
    var w' := Step(w, Advance(id, choice));
    assert w'.events[..|w.events|] == w.events;
    QuietStep(w, id, choice);
    hide Step, Acknowledged, Silent, CopiedBefore;
    if w' != w {
      SetKept(w, w', id, w'.workers[id]);
    }
  }

  lemma QuietStep(w: World, id: nat, choice: Choice)
    requires id in w.workers && WorkerKept(w, id, w.workers[id])
    requires choice.Crash? || w.workers[id].pc in {List, Build, ListAgain, Report, Done, Rejected, Stopped}
    ensures
      var w' := Step(w, Advance(id, choice));
      w' == w || exists worker :: w' == Set(w, id, worker) && WorkerKept(w', id, worker) && !w.workers[id].pc.Rejected?
  {
    var w' := Step(w, Advance(id, choice));
    hide Acknowledged, Silent, CopiedBefore;
    if w' != w {
      var worker := w'.workers[id];
      assert w' == Set(w, id, worker);
      SameRecord(w, w', id, worker);
    }
  }

  /** What is kept of a worker depends on the store and the record only. */
  lemma SameRecord(w: World, w': World, id: nat, worker: Worker)
    requires w'.store == w.store && w'.events == w.events
    ensures WorkerKept(w, id, worker) <==> WorkerKept(w', id, worker)
  {
  }

  lemma {:induction false} AllKept(w: World, actions: seq<Action>)
    requires Kept(w)
    ensures Kept(After(w, actions)) && Extends(w, After(w, actions))
    decreases actions
  {
    if actions != [] {
      StepKept(w, actions[0]);
      AllKept(Step(w, actions[0]), actions[1..]);
      ExtendsThrough(w, Step(w, actions[0]), After(w, actions));
    } else {
      assert w.events[..|w.events|] == w.events;
    }
  }

  lemma ExtendsThrough(a: World, b: World, c: World)
    requires Extends(a, b) && Extends(b, c)
    ensures Extends(a, c)
  {
    assert c.events[..|b.events|][..|a.events|] == c.events[..|a.events|];
  }

  /** The source was copied aside before, and its worker never makes a callback. */
  ghost predicate DiscardedSafely(w: World, n: nat)
    requires n < |w.events| && w.events[n].Discarded?
  {
    CopiedBefore(w, w.events[n].worker, w.events[n].target, n) && Silent(w, w.events[n].worker, |w.events|)
  }

  /** The worker's cleanup, if its manifest asks for one, came after its acknowledged callback. */
  ghost predicate CleanedUp(w: World, id: nat, worker: Worker) {
    worker.key in w.store && (w.store[worker.key].cleanup.Some? ==>
      exists n ::
        && 0 <= n < |w.events| && w.events[n] == Deleted(id, worker.key, w.store[worker.key].cleanup.value)
        && Acknowledged(w, id, worker.key, n))
  }

  /** The stored manifest is the one the worker was to report: of its upload and generation, in its
      mode, of its source; for the film worker under its path and without a cleanup. */
  ghost predicate Expected(w: World, worker: Worker) {
    && worker.key in w.store
    && var m := w.store[worker.key];
      && m.key == worker.key && m.mode == worker.expected.mode
      && (worker.expected.sourceHash.Some? ==> Some(m.sourceHash) == worker.expected.sourceHash)
      && (worker.kind.FilmWorker? ==> m.cleanup.None? && Some(m.path) == worker.expected.path)
      && (worker.kind.ReplayParser? && worker.own.Some? ==> m == worker.own.value)
  }

  /** The source was copied aside, and deleted after that. */
  ghost predicate MovedAside(w: World, id: nat, target: Target) {
    exists n :: 0 <= n < |w.events| && w.events[n] == Discarded(id, target) && CopiedBefore(w, id, target, n)
  }

  lemma DoneKept(w: World, id: nat)
    requires Kept(w) && id in w.workers
    ensures w.workers[id].pc.Done? ==>
      && Acknowledged(w, id, w.workers[id].key, |w.events|)
      && CleanedUp(w, id, w.workers[id]) && Expected(w, w.workers[id])
    ensures w.workers[id].pc.Rejected? ==>
      MovedAside(w, id, w.workers[id].source) && Silent(w, id, |w.events|)
  {
    var worker := w.workers[id];
    assert WorkerKept(w, id, worker);
    if worker.pc.Done? && worker.loaded.value.cleanup.Some? {
      var target := worker.loaded.value.cleanup.value;
      var n :| 0 <= n < |w.events| && w.events[n] == Deleted(id, worker.key, target);
      assert EventKept(w, n);
    }
    if worker.pc.Rejected? {
      var n :| 0 <= n < |w.events| && w.events[n] == Discarded(id, worker.source);
      assert EventKept(w, n);
    }
  }

  /** Whatever the workers, retries and crashes: all callbacks for one upload and generation are
      the stored one; every cleanup delete is the stored one, after its own worker's callback was
      acknowledged; a source that cannot be processed is copied aside before it is deleted, by a
      worker that makes no callback; and no stored manifest is ever replaced. A worker that is done
      has reported the manifest it was to report and then deleted what that asks to delete; one that
      has given up has moved its source aside. */
  lemma CompletionSafety(w: World, actions: seq<Action>)
    requires Initial(w)
    ensures
      var end := After(w, actions);
      && (forall m, n ::
        && 0 <= m < n < |end.events| && end.events[m].Called? && end.events[n].Called?
        && end.events[m].key == end.events[n].key ==>
        end.events[m].path == end.events[n].path && end.events[m].payload == end.events[n].payload)
      && (forall n :: 0 <= n < |end.events| && end.events[n].Deleted? ==>
        && end.events[n].key in end.store && end.store[end.events[n].key].cleanup == Some(end.events[n].target)
        && Acknowledged(end, end.events[n].worker, end.events[n].key, n))
      && (forall n :: 0 <= n < |end.events| && end.events[n].Discarded? ==> DiscardedSafely(end, n))
      && (forall id :: id in end.workers && end.workers[id].pc.Done? ==>
        && Acknowledged(end, id, end.workers[id].key, |end.events|)
        && CleanedUp(end, id, end.workers[id]) && Expected(end, end.workers[id]))
      && (forall id :: id in end.workers && end.workers[id].pc.Rejected? ==>
        MovedAside(end, id, end.workers[id].source) && Silent(end, id, |end.events|))
      && Extends(w, end)
  {
    assert Kept(w);
    AllKept(w, actions);
    var end := After(w, actions);
    hide After;
    forall m, n | 0 <= m < n < |end.events| && end.events[m].Called? && end.events[n].Called?
      && end.events[m].key == end.events[n].key
      ensures end.events[m].path == end.events[n].path && end.events[m].payload == end.events[n].payload
    {
      assert EventKept(end, m) && EventKept(end, n);
    }
    forall n | 0 <= n < |end.events| && end.events[n].Deleted?
      ensures end.events[n].key in end.store && end.store[end.events[n].key].cleanup == Some(end.events[n].target)
      ensures Acknowledged(end, end.events[n].worker, end.events[n].key, n)
    {
      assert EventKept(end, n);
    }
    forall n | 0 <= n < |end.events| && end.events[n].Discarded? ensures DiscardedSafely(end, n) {
      assert EventKept(end, n);
      assert WorkerKept(end, end.events[n].worker, end.workers[end.events[n].worker]);
    }
    forall id | id in end.workers
      ensures end.workers[id].pc.Done? ==>
        && Acknowledged(end, id, end.workers[id].key, |end.events|)
        && CleanedUp(end, id, end.workers[id]) && Expected(end, end.workers[id])
      ensures end.workers[id].pc.Rejected? ==>
        MovedAside(end, id, end.workers[id].source) && Silent(end, id, |end.events|)
    {
      hide Kept, CleanedUp, Expected, MovedAside, Silent, Acknowledged;
      DoneKept(end, id);
    }
  }

  // ----- workers nobody disturbs -----

  /** What one worker does next when everything it calls answers. */
  function Go(w: World, id: nat, n: nat): World
    decreases n
  {
    if n == 0 then w else Go(Step(w, Advance(id, Proceed)), id, n - 1)
  }

  lemma GoOne(w: World, id: nat, n: nat)
    ensures Go(w, id, n + 1) == Go(Step(w, Advance(id, Proceed)), id, n)
    ensures Go(w, id, 0) == w
  {
    hide Step;
  }

  /** Right after the acknowledgement the worker is about to delete what its manifest asks to delete;
      without such a request it is done. */
  lemma CalledThenDeletes(w: World, id: nat)
    requires Kept(w) && id in w.workers && w.workers[id].pc.Dispatch?
    ensures
      var worker, end := w.workers[id], Step(w, Advance(id, Proceed));
      && worker.key in w.store
      && var m := w.store[worker.key];
        && end.events == w.events + [Called(id, worker.key, m.path, m.payload, true)] && end.store == w.store
        && end.workers == w.workers[id := Goto(worker, if m.cleanup.Some? then Delete else Done)]
        && worker.loaded == Some(m)
  {
    assert WorkerKept(w, id, w.workers[id]);
    hide Acknowledged, Silent, CopiedBefore, Deletes, Discards, Accepts;
  }

  /** A call that is answered, then the delete: what is left of a worker that has its manifest. */
  lemma ReportsAlone(w: World, id: nat)
    requires Kept(w) && id in w.workers && w.workers[id].pc.Dispatch?
    ensures
      var worker, end := w.workers[id], Go(w, id, 2);
      && worker.key in w.store && id in end.workers && end.workers[id].pc.Done? && end.store == w.store
      && var m := w.store[worker.key];
        end.events == w.events + [Called(id, worker.key, m.path, m.payload, true)]
          + (if m.cleanup.Some? then [Deleted(id, worker.key, m.cleanup.value)] else [])
  {
    CalledThenDeletes(w, id);
    var w1 := Step(w, Advance(id, Proceed));
    var w2 := Step(w1, Advance(id, Proceed));
    GoOne(w, id, 1);
    GoOne(w1, id, 0);
    GoOne(w2, id, 0);
    hide Kept, Go, Load;
    if w.store[w.workers[id].key].cleanup.None? {
      assert w2 == w1;
    }
  }

  /** A manifest is already there: the worker reports it and builds nothing. */
  lemma RetryAlone(w: World, id: nat, kind: Kind, key: Key, source: Target, expected: Expectation)
    requires Kept(w) && id !in w.workers && key in w.store
    requires Accepts(Worker(kind, key, source, expected, LoadExisting, None, None), w.store[key])
    ensures
      var end := Go(Step(w, Begin(id, kind, key, source, expected)), id, 4);
      && id in end.workers && end.workers[id].pc.Done? && end.store == w.store
      && var m := w.store[key];
        end.events == w.events + [Called(id, key, m.path, m.payload, true)]
          + (if m.cleanup.Some? then [Deleted(id, key, m.cleanup.value)] else [])
  {
    var begin := Begin(id, kind, key, source, expected);
    var w0 := Step(w, begin);
    var w1 := Step(w0, Advance(id, Proceed));
    assert w1 == Set(w, id, Worker(kind, key, source, expected, LoadExisting, None, None));
    var w2 := Step(w1, Advance(id, Proceed));
    assert w2 == Set(w, id, Worker(kind, key, source, expected, Dispatch, None, Some(w.store[key])));
    GoOne(w0, id, 3);
    GoOne(w1, id, 2);
    hide Kept, Go, Accepts, Load;
    StepKept(w, begin);
    StepKept(w0, Advance(id, Proceed));
    StepKept(w1, Advance(id, Proceed));
    ReportsAlone(w2, id);
  }

  /** A new upload, built and put first: the parser stores its manifest, reports it and deletes the
      source of a new upload. */
  lemma ParserAlone(w: World, id: nat, key: Key, source: Target, expected: Expectation, m: Manifest)
    requires Kept(w) && id !in w.workers && key !in w.store && m.key !in w.store
    requires
      var worker := Worker(ReplayParser, key, source, expected, Build, None, None);
      Buildable(worker, m) && Accepts(worker.(key := m.key), m)
    ensures
      var built := Step(Go(Step(w, Begin(id, ReplayParser, key, source, expected)), id, 1), Advance(id, Built(m)));
      var end := Go(built, id, 4);
      && id in end.workers && end.workers[id].pc.Done? && end.store == w.store[m.key := m]
      && end.events == w.events + [Called(id, m.key, m.path, m.payload, true)]
        + (if expected.mode == "initial" then [Deleted(id, m.key, source)] else [])
  {
    ParserBegins(w, id, key, source, expected);
    var worker := Worker(ReplayParser, key, source, expected, Build, None, None);
    hide Kept, Go, Step, Accepts, Load;
    StepKept(w, Begin(id, ReplayParser, key, source, expected));
    StepKept(Step(w, Begin(id, ReplayParser, key, source, expected)), Advance(id, Proceed));
    GoOne(Step(w, Begin(id, ReplayParser, key, source, expected)), id, 0);
    GoOne(Set(w, id, worker), id, 0);
    StoresAlone(Set(w, id, worker), id, worker, m);
  }

  /** What has been built is put, loaded again and reported. */
  lemma StoresAlone(w: World, id: nat, worker: Worker, m: Manifest)
    requires Kept(w) && id in w.workers && w.workers[id] == worker && worker.kind.ReplayParser? && worker.pc.Build?
    requires m.key !in w.store && Buildable(worker, m) && Accepts(worker.(key := m.key), m) && worker.loaded.None?
    ensures
      var end := Go(Step(w, Advance(id, Built(m))), id, 4);
      && id in end.workers && end.workers[id].pc.Done? && end.store == w.store[m.key := m]
      && end.events == w.events + [Called(id, m.key, m.path, m.payload, true)]
        + (if m.cleanup.Some? then [Deleted(id, m.key, m.cleanup.value)] else [])
  {
    var stored := w.(store := w.store[m.key := m]);
    Puts(w, id, worker, m);
    var w3 := Set(stored, id, worker.(key := m.key, pc := LoadPersisted, own := Some(m)));
    var w4 := Step(w3, Advance(id, Proceed));
    assert w4 == Set(stored, id, worker.(key := m.key, pc := Dispatch, own := Some(m), loaded := Some(m)));
    GoOne(Step(w, Advance(id, Built(m))), id, 3);
    GoOne(w3, id, 2);
    hide Kept, Go, Accepts, Load, Buildable, Step;
    StepKept(w3, Advance(id, Proceed));
    ReportsAlone(w4, id);
  }

  /** The manifest just built goes into the store. */
  lemma Puts(w: World, id: nat, worker: Worker, m: Manifest)
    requires Kept(w) && id in w.workers && w.workers[id] == worker && worker.pc.Build?
    requires m.key !in w.store && Buildable(worker, m)
    ensures
      var w3 := Step(Step(w, Advance(id, Built(m))), Advance(id, Proceed));
      && w3 == Set(w.(store := w.store[m.key := m]), id,
                   worker.(key := m.key, pc := if worker.kind.ReplayParser? then LoadPersisted else ListAgain,
                           own := Some(m)))
      && Kept(w3)
  {
    var w2 := Step(w, Advance(id, Built(m)));
    assert w2 == Set(w, id, worker.(key := m.key, pc := Put, own := Some(m)));
    hide Kept, Load, Buildable;
    StepKept(w, Advance(id, Built(m)));
    StepKept(w2, Advance(id, Proceed));
  }

  /** The film worker stores its manifest, finds it again and reports it. */
  lemma FilmAlone(w: World, id: nat, key: Key, source: Target, expected: Expectation, m: Manifest)
    requires Kept(w) && id !in w.workers && key !in w.store
    requires
      var worker := Worker(FilmWorker, key, source, expected, Build, None, None);
      Buildable(worker, m) && Accepts(worker, m)
    ensures
      var built := Step(Go(Step(w, Begin(id, FilmWorker, key, source, expected)), id, 1), Advance(id, Built(m)));
      var end := Go(built, id, 5);
      && id in end.workers && end.workers[id].pc.Done? && end.store == w.store[key := m]
      && end.events == w.events + [Called(id, key, m.path, m.payload, true)]
  {
    var worker := Worker(FilmWorker, key, source, expected, Build, None, None);
    FilmBegins(w, id, key, source, expected);
    hide Kept, Go, Step, Accepts, Load;
    StepKept(w, Begin(id, FilmWorker, key, source, expected));
    StepKept(Step(w, Begin(id, FilmWorker, key, source, expected)), Advance(id, Proceed));
    GoOne(Step(w, Begin(id, FilmWorker, key, source, expected)), id, 0);
    GoOne(Set(w, id, worker), id, 0);
    FindsAgain(Set(w, id, worker), id, worker, m);
  }

  lemma FilmBegins(w: World, id: nat, key: Key, source: Target, expected: Expectation)
    requires id !in w.workers && key !in w.store
    ensures Go(Step(w, Begin(id, FilmWorker, key, source, expected)), id, 1)
      == Set(w, id, Worker(FilmWorker, key, source, expected, Build, None, None))
  {
    var w0 := Step(w, Begin(id, FilmWorker, key, source, expected));
    var w1 := Step(w0, Advance(id, Proceed));
    assert w1 == Set(w, id, Worker(FilmWorker, key, source, expected, Build, None, None));
    GoOne(w0, id, 0);
    GoOne(w1, id, 0);
    hide Go, Step;
  }

  lemma FindsAgain(w: World, id: nat, worker: Worker, m: Manifest)
    requires Kept(w) && id in w.workers && w.workers[id] == worker && worker.kind.FilmWorker? && worker.pc.Build?
    requires worker.key !in w.store && Buildable(worker, m) && Accepts(worker, m) && worker.loaded.None?
    ensures
      var end := Go(Step(w, Advance(id, Built(m))), id, 5);
      && id in end.workers && end.workers[id].pc.Done? && end.store == w.store[worker.key := m]
      && end.events == w.events + [Called(id, worker.key, m.path, m.payload, true)]
  {
    var stored := w.(store := w.store[worker.key := m]);
    Puts(w, id, worker, m);
    var w3 := Set(stored, id, worker.(pc := ListAgain, own := Some(m)));
    var w4 := Step(w3, Advance(id, Proceed));
    assert w4 == Set(stored, id, worker.(pc := LoadExisting, own := Some(m)));
    var w5 := Step(w4, Advance(id, Proceed));
    assert w5 == Set(stored, id, worker.(pc := Dispatch, own := Some(m), loaded := Some(m)));
    GoOne(Step(w, Advance(id, Built(m))), id, 4);
    GoOne(w3, id, 3);
    GoOne(w4, id, 2);
    hide Kept, Go, Accepts, Load, Buildable, Step;
    StepKept(w3, Advance(id, Proceed));
    StepKept(w4, Advance(id, Proceed));
    ReportsAlone(w5, id);
  }

  /** A new upload that cannot be processed: reported, copied aside, deleted. */
  lemma UnprocessableAlone(w: World, id: nat, key: Key, source: Target, expected: Expectation)
    requires id !in w.workers && key !in w.store && expected.mode == "initial"
    ensures
      var begun := Go(Step(w, Begin(id, ReplayParser, key, source, expected)), id, 1);
      var end := Go(Step(begun, Advance(id, Unprocessable)), id, 3);
      && id in end.workers && end.workers[id].pc.Rejected? && end.store == w.store
      && end.events == w.events + [Copied(id, source), Discarded(id, source)]
  {
    ParserBegins(w, id, key, source, expected);
    var worker := Worker(ReplayParser, key, source, expected, Report, None, None);
    var w2 := Step(Set(w, id, Goto(worker, Build)), Advance(id, Unprocessable));
    assert w2 == Set(w, id, worker);
    hide Go, Step;
    MovesAside(w2, id, worker);
  }

  lemma ParserBegins(w: World, id: nat, key: Key, source: Target, expected: Expectation)
    requires id !in w.workers && key !in w.store
    ensures Go(Step(w, Begin(id, ReplayParser, key, source, expected)), id, 1)
      == Set(w, id, Worker(ReplayParser, key, source, expected, Build, None, None))
  {
    var w0 := Step(w, Begin(id, ReplayParser, key, source, expected));
    var w1 := Step(w0, Advance(id, Proceed));
    assert w1 == Set(w, id, Worker(ReplayParser, key, source, expected, Build, None, None));
    GoOne(w0, id, 0);
    GoOne(w1, id, 0);
    hide Go, Step;
  }

  lemma MovesAside(w: World, id: nat, worker: Worker)
    requires id in w.workers && w.workers[id] == worker && worker.pc.Report? && worker.expected.mode == "initial"
    ensures Go(w, id, 3) == Set(w.(events := w.events + [Copied(id, worker.source), Discarded(id, worker.source)]), id,
                                Goto(worker, Rejected))
  {
    var w1 := Step(w, Advance(id, Proceed));
    assert w1 == Set(w, id, Goto(worker, Copy));
    var w2 := Step(w1, Advance(id, Proceed));
    assert w2 == Set(w.(events := w.events + [Copied(id, worker.source)]), id, Goto(worker, Discard));
    var w3 := Step(w2, Advance(id, Proceed));
    assert w.events + [Copied(id, worker.source)] + [Discarded(id, worker.source)]
        == w.events + [Copied(id, worker.source), Discarded(id, worker.source)];
    GoOne(w, id, 2);
    GoOne(w1, id, 1);
    GoOne(w2, id, 0);
    GoOne(w3, id, 0);
    hide Go, Load;
  }
}
