/** The alias promotion protocol: deployments and configuration promotions run concurrently
    against one alias, one LATEST and the published versions. Every remote call is one step, and
    every change of the alias or of LATEST gets a fresh revision. */
module Promotion {
  import opened Base

  /** What a version is compared by: its code hash and its settings. */
  datatype Snapshot = Snapshot(code: string, settings: string)

  datatype Alias = Alias(version: nat, revision: nat)

  datatype Latest = Latest(snapshot: Snapshot, revision: nat, ready: bool)

  datatype Kind = Deploy(code: string) | Configure

  /** The next remote call of a run. */
  datatype Pc =
    | GetAlias
    | WaitLatest
    | UpdateCode
    | WaitStaged
    | CheckAliasBeforePublish
    | CheckLatestBeforePublish
    | Publish
    | WaitPublished
    | ReadLive
    | CheckAliasCurrent
    | CheckLatestCurrent
    | FindVersion
    | ReadCandidate
    | CheckAlias
    | CheckLatest
    | UpdateAlias
    | Confirm
    | Done
    | Failed

  /** A run with what it has read: the alias, the LATEST it relies on, the version to promote. */
  datatype Run = Run(kind: Kind, pc: Pc, alias: Alias, base: Latest, version: nat)

  /** One alias update by a run. */
  datatype Move = Move(run: nat, kind: Kind, read: Alias, version: nat, verified: Snapshot)

  datatype World = World(
    versions: seq<Snapshot>,
    alias: Alias,
    latest: Latest,
    clock: nat,
    runs: map<nat, Run>,
    moves: seq<Move>,
    aliasAt: map<nat, nat>,
    latestAt: map<nat, Snapshot>)

  /** What may happen next. The choice of an advance stands for what the remote side decides:
      a timeout, an expected configuration that does not match, the version a search returns. */
  datatype Action =
    | Begin(id: nat, kind: Kind)
    | Advance(id: nat, choice: Choice)
    | ChangeLatest(snapshot: Snapshot, ready: bool)
    | ChangeAlias(version: nat)

  datatype Choice = Proceed | GiveUp | Pick(version: nat)

  function Fail(run: Run): Run {
    run.(pc := Failed)
  }

  function Goto(run: Run, pc: Pc): Run {
    run.(pc := pc)
  }

  function Put(w: World, id: nat, run: Run): World {
    w.(runs := w.runs[id := run])
  }

  /** LATEST changes and gets a revision nobody has read. */
  function Touch(w: World, snapshot: Snapshot, ready: bool): World {
    w.(latest := Latest(snapshot, w.clock, ready), latestAt := w.latestAt[w.clock := snapshot], clock := w.clock + 1)
  }

  function MoveAlias(w: World, version: nat): World {
    w.(alias := Alias(version, w.clock), aliasAt := w.aliasAt[w.clock := version], clock := w.clock + 1)
  }

  /** LATEST is still the one the run relies on: ready, same revision, same snapshot. */
  predicate LatestUnchanged(w: World, run: Run) {
    w.latest.ready && w.latest.revision == run.base.revision && w.latest.snapshot == run.base.snapshot
  }

  /** A published version with the given snapshot, existing or new. */
  predicate Published(w: World, version: nat, snapshot: Snapshot) {
    version < |w.versions| && w.versions[version] == snapshot
  }

  /** The newest of the first n versions with the given snapshot. */
  function Newest(versions: seq<Snapshot>, snapshot: Snapshot, n: nat): (found: Option<nat>)
    requires n <= |versions|
    ensures found.Some? ==> found.value < n && versions[found.value] == snapshot
    ensures forall i :: 0 <= i < n && versions[i] == snapshot ==> found.Some? && i <= found.value
  {
    if n == 0 then None
    else if versions[n - 1] == snapshot then Some(n - 1)
    else Newest(versions, snapshot, n - 1)
  }

  function Staging(w: World, id: nat, run: Run, choice: Choice): World {
    match run.pc
    case UpdateCode =>
      if run.kind.Deploy? && w.latest.revision == run.base.revision then
        Put(Touch(w, Snapshot(run.kind.code, w.latest.snapshot.settings), false), id, Goto(run, WaitStaged))
      else Put(w, id, Fail(run))
    case WaitStaged =>
      if !w.latest.ready || choice.GiveUp? then Put(w, id, if choice.GiveUp? then Fail(run) else run)
      else if run.kind.Deploy? && w.latest.snapshot.code == run.kind.code then
        Put(w, id, Goto(run.(base := w.latest), CheckAliasBeforePublish))
      else Put(w, id, Fail(run))
    case CheckAliasBeforePublish =>
      Put(w, id, if w.alias.revision == run.alias.revision then Goto(run, CheckLatestBeforePublish) else Fail(run))
    case CheckLatestBeforePublish =>
      Put(w, id, if LatestUnchanged(w, run) then Goto(run, Publish) else Fail(run))
    case Publish =>
      if w.latest.revision != run.base.revision
        || w.latest.snapshot.code != run.base.snapshot.code then Put(w, id, Fail(run))
      else if choice.Pick? && Published(w, choice.version, w.latest.snapshot) then
        Put(Touch(w, w.latest.snapshot, w.latest.ready), id, Goto(run.(version := choice.version), WaitPublished))
      else
        var published := w.(versions := w.versions + [w.latest.snapshot]);
        Put(Touch(published, w.latest.snapshot, w.latest.ready), id, Goto(run.(version := |w.versions|), WaitPublished))
    case WaitPublished =>
      if !w.latest.ready || choice.GiveUp? then Put(w, id, if choice.GiveUp? then Fail(run) else run)
      else if w.latest.snapshot == run.base.snapshot then Put(w, id, Goto(run.(base := w.latest), ReadCandidate))
      else Put(w, id, Fail(run))
    case _ => w
  }

  function Configuring(w: World, id: nat, run: Run, choice: Choice): World {
    match run.pc
    case ReadLive =>
      if run.alias.version >= |w.versions|
        || w.versions[run.alias.version].code != run.base.snapshot.code then Put(w, id, Fail(run))
      else if w.versions[run.alias.version] == run.base.snapshot then
        Put(w, id, Goto(run, CheckAliasCurrent))
      else Put(w, id, Goto(run, FindVersion))
    case CheckAliasCurrent =>
      Put(w, id, if w.alias.revision == run.alias.revision then Goto(run, CheckLatestCurrent) else Fail(run))
    case CheckLatestCurrent =>
      Put(w, id, if LatestUnchanged(w, run) then Goto(run, Done) else Fail(run))
    case FindVersion =>
      var found := Newest(w.versions, run.base.snapshot, |w.versions|);
      if found.None? || choice.GiveUp? then Put(w, id, Fail(run))
      else Put(w, id, Goto(run.(version := found.value), ReadCandidate))
    case _ => w
  }

  function Promoting(w: World, id: nat, run: Run, choice: Choice): World {
    match run.pc
    case ReadCandidate =>
      Put(w, id, if Published(w, run.version, run.base.snapshot) && !choice.GiveUp? then Goto(run, CheckAlias)
          else Fail(run))
    case CheckAlias =>
      Put(w, id, if w.alias.revision == run.alias.revision then Goto(run, CheckLatest) else Fail(run))
    case CheckLatest =>
      Put(w, id, if LatestUnchanged(w, run) then Goto(run, UpdateAlias) else Fail(run))
    case UpdateAlias =>
      if w.alias.revision != run.alias.revision then Put(w, id, Fail(run))
      else
        var moved := MoveAlias(w, run.version);
        Put(moved.(moves := w.moves + [Move(id, run.kind, run.alias, run.version, run.base.snapshot)]), id,
            Goto(run, Confirm))
    case Confirm =>
      Put(w, id, if w.alias.version == run.version then Goto(run, Done) else Fail(run))
    case _ => w
  }

  function Starting(w: World, id: nat, run: Run, choice: Choice): World {
    match run.pc
    case GetAlias => Put(w, id, Goto(run.(alias := w.alias), WaitLatest))
    case WaitLatest =>
      if choice.GiveUp? then Put(w, id, Fail(run))
      else if !w.latest.ready then w
      else Put(w, id, Goto(run.(base := w.latest), if run.kind.Deploy? then UpdateCode else ReadLive))
    case _ => w
  }

  function Step(w: World, action: Action): World {
    match action
    case Begin(id, kind) =>
      if id in w.runs then w else Put(w, id, Run(kind, GetAlias, w.alias, w.latest, 0))
    case ChangeLatest(snapshot, ready) => Touch(w, snapshot, ready)
    case ChangeAlias(version) => if version < |w.versions| then MoveAlias(w, version) else w
    case Advance(id, choice) =>
      if id !in w.runs then w
      else
        var run := w.runs[id];
        match run.pc
        case GetAlias => Starting(w, id, run, choice)
        case WaitLatest => Starting(w, id, run, choice)
        case ReadLive => Configuring(w, id, run, choice)
        case CheckAliasCurrent => Configuring(w, id, run, choice)
        case CheckLatestCurrent => Configuring(w, id, run, choice)
        case FindVersion => Configuring(w, id, run, choice)
        case ReadCandidate => Promoting(w, id, run, choice)
        case CheckAlias => Promoting(w, id, run, choice)
        case CheckLatest => Promoting(w, id, run, choice)
        case UpdateAlias => Promoting(w, id, run, choice)
        case Confirm => Promoting(w, id, run, choice)
        case _ => Staging(w, id, run, choice)
  }

  function After(w: World, actions: seq<Action>): World
    decreases actions
  {
    if actions == [] then w else After(Step(w, actions[0]), actions[1..])
  }

  /** One published version is live; nothing is running. */
  predicate Initial(w: World) {
    && w.alias.version < |w.versions|
    && w.alias.revision < w.clock && w.latest.revision < w.clock
    && w.runs == map[] && w.moves == []
    && w.aliasAt == map[w.alias.revision := w.alias.version]
    && w.latestAt == map[w.latest.revision := w.latest.snapshot]
  }

  // ----- what every step keeps -----

  /** The run read the alias at some moment: its revision stands for its version. */
  ghost predicate ReadAlias(w: World, alias: Alias) {
    alias.revision in w.aliasAt && w.aliasAt[alias.revision] == alias.version && alias.version < |w.versions|
  }

  /** The run read LATEST at some moment: its revision stands for its snapshot. */
  ghost predicate ReadLatest(w: World, latest: Latest) {
    latest.revision in w.latestAt && w.latestAt[latest.revision] == latest.snapshot
  }

  predicate Relies(pc: Pc) {
    pc in {CheckAliasBeforePublish, CheckLatestBeforePublish, Publish, WaitPublished, ReadCandidate, CheckAlias,
        CheckLatest, UpdateAlias, Confirm, FindVersion}
  }

  predicate HasCandidate(pc: Pc) {
    pc in {CheckAlias, CheckLatest, UpdateAlias, Confirm}
  }

  /** The run has found the live version to be LATEST already. */
  predicate Current(pc: Pc) {
    pc in {CheckAliasCurrent, CheckLatestCurrent}
  }

  predicate OnlyConfigures(pc: Pc) {
    pc in {ReadLive, CheckAliasCurrent, CheckLatestCurrent, FindVersion}
  }

  ghost predicate RunKept(w: World, run: Run) {
    && (OnlyConfigures(run.pc) ==> run.kind.Configure?)
    && ReadAlias(w, run.alias) && ReadLatest(w, run.base)
    && (Current(run.pc) ==> Published(w, run.alias.version, run.base.snapshot))
    && (Relies(run.pc) && run.kind.Deploy? ==> run.base.snapshot.code == run.kind.code)
    && (Relies(run.pc) && run.kind.Configure? ==> w.versions[run.alias.version].code == run.base.snapshot.code)
    && (HasCandidate(run.pc) ==> Published(w, run.version, run.base.snapshot))
  }

  /** What an alias update by a run amounts to. */
  ghost predicate MoveKept(w: World, move: Move) {
    && ReadAlias(w, move.read)
    && Published(w, move.version, move.verified)
    && (move.kind.Deploy? ==> w.versions[move.version].code == move.kind.code)
    && (move.kind.Configure? ==> w.versions[move.version].code == w.versions[move.read.version].code)
  }

  ghost predicate Kept(w: World) {
    && ReadAlias(w, w.alias) && ReadLatest(w, w.latest)
    && (forall r :: r in w.aliasAt ==> r < w.clock)
    && (forall r :: r in w.latestAt ==> r < w.clock)
    && (forall id :: id in w.runs ==> RunKept(w, w.runs[id]))
    && (forall i :: 0 <= i < |w.moves| ==> MoveKept(w, w.moves[i]) && w.moves[i].read.revision != w.alias.revision)
    && (forall i, j :: 0 <= i < j < |w.moves| ==> w.moves[i].read.revision != w.moves[j].read.revision)
  }

  lemma PutKept(w: World, id: nat, run: Run)
    requires Kept(w) && RunKept(w, run)
    ensures Kept(Put(w, id, run))
  {
    var w' := Put(w, id, run);
    forall k | k in w'.runs ensures RunKept(w', w'.runs[k]) {
      if k != id {
        assert RunKept(w, w.runs[k]);
      }
    }
  }

  lemma TouchKept(w: World, snapshot: Snapshot, ready: bool)
    requires Kept(w)
    ensures Kept(Touch(w, snapshot, ready))
    ensures forall run :: RunKept(w, run) ==> RunKept(Touch(w, snapshot, ready), run)
  {
    var w' := Touch(w, snapshot, ready);
    forall run | RunKept(w, run) ensures RunKept(w', run) {
      assert run.base.revision < w.clock;
    }
    forall i | 0 <= i < |w.moves| ensures MoveKept(w', w'.moves[i]) {
      assert MoveKept(w, w.moves[i]);
    }
  }

  /** Versions are only ever added. */
  lemma PublishKept(w: World, snapshot: Snapshot)
    requires Kept(w)
    ensures Kept(w.(versions := w.versions + [snapshot]))
    ensures forall run :: RunKept(w, run) ==> RunKept(w.(versions := w.versions + [snapshot]), run)
  {
    var w' := w.(versions := w.versions + [snapshot]);
    forall run | RunKept(w, run) ensures RunKept(w', run) {
    }
    forall i | 0 <= i < |w.moves| ensures MoveKept(w', w'.moves[i]) {
      assert MoveKept(w, w.moves[i]);
    }
  }

  /** A fresh revision is nobody's. */
  lemma AliasMoves(w: World, version: nat)
    requires Kept(w) && version < |w.versions|
    ensures
      var w' := MoveAlias(w, version);
      && Kept(w')
      && (forall run :: RunKept(w, run) ==> RunKept(w', run))
      && (forall move :: MoveKept(w, move) ==> MoveKept(w', move) && move.read.revision != w'.alias.revision)
  {
    var w' := MoveAlias(w, version);
    forall run | RunKept(w, run) ensures RunKept(w', run) {
      if run.pc != GetAlias {
        assert ReadAlias(w, run.alias);
        assert run.alias.revision < w.clock;
      }
    }
    forall move | MoveKept(w, move) ensures MoveKept(w', move) && move.read.revision != w'.alias.revision {
      assert move.read.revision < w.clock;
    }
  }

  lemma MoveRecorded(w: World, id: nat, run: Run)
    requires Kept(w) && RunKept(w, run) && run.pc == UpdateAlias && w.alias.revision == run.alias.revision
    ensures
      var moved := MoveAlias(w, run.version);
      var w' := moved.(moves := w.moves + [Move(id, run.kind, run.alias, run.version, run.base.snapshot)]);
      Kept(w') && RunKept(w', Goto(run, Confirm))
  {
    AliasMoves(w, run.version);
    var moved := MoveAlias(w, run.version);
    var move := Move(id, run.kind, run.alias, run.version, run.base.snapshot);
    assert MoveKept(w, move);
    var w' := moved.(moves := w.moves + [move]);
    forall i | 0 <= i < |w'.moves| ensures MoveKept(w', w'.moves[i]) && w'.moves[i].read.revision != w'.alias.revision {
      if i < |w.moves| {
        assert MoveKept(w, w.moves[i]);
      }
    }
    forall k | k in w'.runs ensures RunKept(w', w'.runs[k]) {
      assert RunKept(moved, w'.runs[k]);
    }
  }

  lemma StartingKept(w: World, id: nat, run: Run, choice: Choice)
    requires Kept(w) && id in w.runs && w.runs[id] == run
    ensures Kept(Starting(w, id, run, choice))
  {
    assert RunKept(w, run);
    match run.pc {
      case GetAlias => PutKept(w, id, Goto(run.(alias := w.alias), WaitLatest));
      case WaitLatest =>
        PutKept(w, id, Fail(run));
        PutKept(w, id, Goto(run.(base := w.latest), if run.kind.Deploy? then UpdateCode else ReadLive));
      case _ =>
    }
  }

  lemma UpdateCodeKept(w: World, id: nat, run: Run)
    requires Kept(w) && RunKept(w, run) && run.pc == UpdateCode && run.kind.Deploy?
    ensures Kept(Put(Touch(w, Snapshot(run.kind.code, w.latest.snapshot.settings), false), id, Goto(run, WaitStaged)))
  {
    var staged := Snapshot(run.kind.code, w.latest.snapshot.settings);
    TouchKept(w, staged, false);
    assert RunKept(w, Goto(run, WaitStaged));
    PutKept(Touch(w, staged, false), id, Goto(run, WaitStaged));
  }

  lemma PublishedKept(w: World, id: nat, run: Run, version: nat)
    requires Kept(w) && RunKept(w, run) && run.pc == Publish
    ensures Kept(Put(Touch(w, w.latest.snapshot, w.latest.ready), id, Goto(run.(version := version), WaitPublished)))
  {
    TouchKept(w, w.latest.snapshot, w.latest.ready);
    assert RunKept(w, Goto(run.(version := version), WaitPublished));
    PutKept(Touch(w, w.latest.snapshot, w.latest.ready), id, Goto(run.(version := version), WaitPublished));
  }

  lemma StagingKept(w: World, id: nat, run: Run, choice: Choice)
    requires Kept(w) && id in w.runs && w.runs[id] == run && run.pc != GetAlias
    ensures Kept(Staging(w, id, run, choice))
  {
    assert RunKept(w, run);
    assert RunKept(w, Fail(run));
    hide Kept, RunKept, Touch, Published;
    PutKept(w, id, Fail(run));
    PutKept(w, id, run);
    match run.pc {
      case UpdateCode =>
        if run.kind.Deploy? {
          UpdateCodeKept(w, id, run);
        }
      case WaitStaged => StagedKept(w, id, run);
      case CheckAliasBeforePublish => NextKept(w, id, run, CheckLatestBeforePublish);
      case CheckLatestBeforePublish => NextKept(w, id, run, Publish);
      case Publish =>
        PublishKept(w, w.latest.snapshot);
        if choice.Pick? {
          PublishedKept(w, id, run, choice.version);
        }
        PublishedKept(w.(versions := w.versions + [w.latest.snapshot]), id, run, |w.versions|);
      case WaitPublished => RebasedKept(w, id, run);
      case _ =>
    }
  }

  lemma StagedKept(w: World, id: nat, run: Run)
    requires Kept(w) && RunKept(w, run) && run.pc == WaitStaged
    ensures run.kind.Deploy? && w.latest.snapshot.code == run.kind.code ==>
      Kept(Put(w, id, Goto(run.(base := w.latest), CheckAliasBeforePublish)))
  {
    if run.kind.Deploy? && w.latest.snapshot.code == run.kind.code {
      PutKept(w, id, Goto(run.(base := w.latest), CheckAliasBeforePublish));
    }
  }

  lemma RebasedKept(w: World, id: nat, run: Run)
    requires Kept(w) && RunKept(w, run) && run.pc == WaitPublished
    ensures w.latest.snapshot == run.base.snapshot ==> Kept(Put(w, id, Goto(run.(base := w.latest), ReadCandidate)))
  {
    if w.latest.snapshot == run.base.snapshot {
      PutKept(w, id, Goto(run.(base := w.latest), ReadCandidate));
    }
  }

  lemma NextKept(w: World, id: nat, run: Run, pc: Pc)
    requires Kept(w) && RunKept(w, run) && run.pc != GetAlias
    requires OnlyConfigures(pc) ==> OnlyConfigures(run.pc)
    requires Relies(pc) ==> Relies(run.pc)
    requires HasCandidate(pc) ==> HasCandidate(run.pc) || Published(w, run.version, run.base.snapshot)
    requires Current(pc) ==> Current(run.pc)
    ensures Kept(Put(w, id, Goto(run, pc)))
  {
    PutKept(w, id, Goto(run, pc));
  }

  lemma ConfiguringKept(w: World, id: nat, run: Run, choice: Choice)
    requires Kept(w) && id in w.runs && w.runs[id] == run && run.pc != GetAlias
    ensures Kept(Configuring(w, id, run, choice))
  {
    assert RunKept(w, run);
    assert RunKept(w, Fail(run));
    PutKept(w, id, Fail(run));
    match run.pc {
      case ReadLive =>
        if run.alias.version < |w.versions| && w.versions[run.alias.version].code == run.base.snapshot.code {
          ReadLiveKept(w, id, run);
        }
      case CheckAliasCurrent => NextKept(w, id, run, CheckLatestCurrent);
      case CheckLatestCurrent => NextKept(w, id, run, Done);
      case FindVersion =>
        var found := Newest(w.versions, run.base.snapshot, |w.versions|);
        if found.Some? {
          PutKept(w, id, Goto(run.(version := found.value), ReadCandidate));
        }
      case _ =>
    }
  }

  lemma ReadLiveKept(w: World, id: nat, run: Run)
    requires Kept(w) && RunKept(w, run) && run.pc == ReadLive
    requires run.alias.version < |w.versions| && w.versions[run.alias.version].code == run.base.snapshot.code
    ensures w.versions[run.alias.version] == run.base.snapshot ==> Kept(Put(w, id, Goto(run, CheckAliasCurrent)))
    ensures run.kind.Configure? ==> Kept(Put(w, id, Goto(run, FindVersion)))
  {
    if w.versions[run.alias.version] == run.base.snapshot {
      PutKept(w, id, Goto(run, CheckAliasCurrent));
    }
    if run.kind.Configure? {
      PutKept(w, id, Goto(run, FindVersion));
    }
  }

  lemma PromotingKept(w: World, id: nat, run: Run, choice: Choice)
    requires Kept(w) && id in w.runs && w.runs[id] == run && run.pc != GetAlias
    ensures Kept(Promoting(w, id, run, choice))
  {
    assert RunKept(w, run);
    assert RunKept(w, Fail(run));
    hide Kept, RunKept;
    PutKept(w, id, Fail(run));
    match run.pc {
      case ReadCandidate =>
        if Published(w, run.version, run.base.snapshot) {
          NextKept(w, id, run, CheckAlias);
        }
      case CheckAlias => NextKept(w, id, run, CheckLatest);
      case CheckLatest => NextKept(w, id, run, UpdateAlias);
      case UpdateAlias =>
        if w.alias.revision == run.alias.revision {
          MoveRecorded(w, id, run);
          var moved := MoveAlias(w, run.version);
          PutKept(moved.(moves := w.moves + [Move(id, run.kind, run.alias, run.version, run.base.snapshot)]), id,
                  Goto(run, Confirm));
        }
      case Confirm => NextKept(w, id, run, Done);
      case _ =>
    }
  }

  lemma StepKept(w: World, action: Action)
    requires Kept(w)
    ensures Kept(Step(w, action))
  {
    match action
    case Begin(id, kind) => PutKept(w, id, Run(kind, GetAlias, w.alias, w.latest, 0));
    case ChangeLatest(snapshot, ready) => TouchKept(w, snapshot, ready);
    case ChangeAlias(version) =>
      if version < |w.versions| {
        AliasMoves(w, version);
      }
    case Advance(id, choice) =>
      if id in w.runs {
        var run := w.runs[id];
        StartingKept(w, id, run, choice);
        if run.pc != GetAlias {
          ConfiguringKept(w, id, run, choice);
          PromotingKept(w, id, run, choice);
          StagingKept(w, id, run, choice);
        }
        hide Kept, Starting, Configuring, Promoting, Staging;
      }
  }

  lemma InitialKept(w: World)
    requires Initial(w)
    ensures Kept(w)
  {
  }

  lemma {:induction false} AllKept(w: World, actions: seq<Action>)
    requires Kept(w)
    ensures Kept(After(w, actions))
    decreases actions
  {
    if actions != [] {
      StepKept(w, actions[0]);
      AllKept(Step(w, actions[0]), actions[1..]);
    }
  }

  // ----- what follows -----

  /** The alias moves only by an outside change or by one recorded update; that update found the
      alias its run had read, and its version carries what the run verified. */
  lemma AliasChanges(w: World, action: Action)
    requires Kept(w) && Step(w, action).alias != w.alias && !action.ChangeAlias?
    ensures
      var w' := Step(w, action);
      && |w'.moves| == |w.moves| + 1 && w'.moves[..|w.moves|] == w.moves
      && var move := w'.moves[|w.moves|];
        && action.Advance? && move.run == action.id
        && move.read == w.alias
        && w'.alias.version == move.version
        && Published(w', move.version, move.verified)
        && (move.kind.Deploy? ==> w'.versions[w'.alias.version].code == move.kind.code)
        && (move.kind.Configure? ==> w'.versions[w'.alias.version].code == w.versions[w.alias.version].code)
  {
    StepKept(w, action);
    var w' := Step(w, action);
    if action.Advance? && action.id in w.runs && w.runs[action.id].pc == UpdateAlias {
      assert RunKept(w, w.runs[action.id]);
      assert MoveKept(w', w'.moves[|w.moves|]);
    }
  }

  /** The run is on record: it moved the alias it had read to its version, whose snapshot is the
      LATEST it had read. */
  ghost predicate HasMoved(w: World, id: nat, run: Run) {
    exists i :: 0 <= i < |w.moves| && w.moves[i] == Move(id, run.kind, run.alias, run.version, run.base.snapshot)
  }

  /** What a finished run has to show: a deployment, that it moved the alias; a configuration promotion,
      that or a live version equal to the LATEST it read. */
  ghost predicate Achieved(w: World, id: nat, run: Run) {
    HasMoved(w, id, run) || (run.kind.Configure? && Published(w, run.alias.version, run.base.snapshot))
  }

  ghost predicate Recorded(w: World) {
    forall id :: id in w.runs ==>
      && (w.runs[id].pc == Confirm ==> HasMoved(w, id, w.runs[id]))
      && (w.runs[id].pc == Done ==> Achieved(w, id, w.runs[id]))
  }

  /** Records and versions are only ever added. */
  ghost predicate Grows(w: World, w': World) {
    && |w'.moves| >= |w.moves| && w'.moves[..|w.moves|] == w.moves
    && |w'.versions| >= |w.versions| && w'.versions[..|w.versions|] == w.versions
  }

  lemma SameGrows(w: World)
    ensures Grows(w, w)
  {
  }

  lemma PromotingGrows(w: World, id: nat, run: Run, choice: Choice)
    ensures Grows(w, Promoting(w, id, run, choice))
  {
    hide Published, LatestUnchanged;
  }

  lemma StagingGrows(w: World, id: nat, run: Run, choice: Choice)
    ensures Grows(w, Staging(w, id, run, choice))
  {
    hide Published, LatestUnchanged;
  }

  lemma MovesGrow(w: World, action: Action)
    ensures Grows(w, Step(w, action))
  {
    SameGrows(w);
    if action.Advance? && action.id in w.runs {
      var id, run, choice := action.id, w.runs[action.id], action.choice;
      AdvanceIs(w, id, choice);
      PromotingGrows(w, id, run, choice);
      StagingGrows(w, id, run, choice);
      OthersGrow(w, id, run, choice);
      hide Step, Grows;
    }
  }

  lemma OthersGrow(w: World, id: nat, run: Run, choice: Choice)
    ensures Grows(w, Starting(w, id, run, choice)) && Grows(w, Configuring(w, id, run, choice))
  {
    hide Published, LatestUnchanged, Newest;
  }

  lemma StillAchieved(w: World, action: Action, id: nat, run: Run)
    ensures HasMoved(w, id, run) ==> HasMoved(Step(w, action), id, run)
    ensures Achieved(w, id, run) ==> Achieved(Step(w, action), id, run)
  {
    MovesGrow(w, action);
    var w' := Step(w, action);
    hide Step;
    if i :| 0 <= i < |w.moves| && w.moves[i] == Move(id, run.kind, run.alias, run.version, run.base.snapshot) {
      assert w'.moves[..|w.moves|][i] == w'.moves[i];
    }
    if Published(w, run.alias.version, run.base.snapshot) {
      assert w'.versions[..|w.versions|][run.alias.version] == w'.versions[run.alias.version];
    }
  }

  lemma StepRecorded(w: World, action: Action)
    requires Kept(w) && Recorded(w)
    ensures Recorded(Step(w, action))
  {
    var w' := Step(w, action);
    forall id | id in w'.runs && w'.runs[id].pc in {Confirm, Done}
      ensures w'.runs[id].pc == Confirm ==> HasMoved(w', id, w'.runs[id])
      ensures w'.runs[id].pc == Done ==> Achieved(w', id, w'.runs[id])
    {
      hide Step, Kept, HasMoved, Achieved;
      if id in w.runs && w.runs[id] == w'.runs[id] {
        StillAchieved(w, action, id, w.runs[id]);
      } else {
        RunsOfOthers(w, action, id);
        StepChecked(w, id, action.choice);
        NowAchieved(w, action, id);
      }
    }
  }

  lemma NowAchieved(w: World, action: Action, id: nat)
    requires id in w.runs && (w.runs[id].pc == Confirm ==> HasMoved(w, id, w.runs[id]))
    requires id in Step(w, action).runs
    requires Checked(w, id, w.runs[id], Step(w, action), Step(w, action).runs[id])
    ensures Step(w, action).runs[id].pc == Confirm ==> HasMoved(Step(w, action), id, Step(w, action).runs[id])
    ensures Step(w, action).runs[id].pc == Done ==> Achieved(Step(w, action), id, Step(w, action).runs[id])
  {
    var run, w' := w.runs[id], Step(w, action);
    StillAchieved(w, action, id, run);
    hide Step, Published;
    if w'.runs[id].pc == Confirm {
      assert w'.moves[|w.moves|] == Move(id, run.kind, run.alias, run.version, run.base.snapshot);
    }
  }

  // ----- what a run has checked before it goes on -----

  /** How a run gets past its checks, and what the world was like when it did. */
  ghost predicate Checked(w: World, id: nat, run: Run, w': World, run': Run) {
    && run'.kind == run.kind && ReadAlias(w, run.alias) && ReadLatest(w, run.base)
    && (run'.pc in {CheckLatestBeforePublish, CheckLatestCurrent, CheckLatest} ==>
          && w.alias == run.alias && run' == Goto(run, run'.pc)
          && run.pc == match run'.pc
                       case CheckLatestBeforePublish => CheckAliasBeforePublish
                       case CheckLatestCurrent => CheckAliasCurrent
                       case _ => CheckAlias)
    && (run'.pc == Publish || run'.pc == UpdateAlias || (run'.pc == Done && run.pc != Confirm) ==>
          && w.latest.ready && w.latest.revision == run.base.revision && w.latest.snapshot == run.base.snapshot
          && run' == Goto(run, run'.pc)
          && run.pc == match run'.pc
                       case Publish => CheckLatestBeforePublish
                       case Done => CheckLatestCurrent
                       case _ => CheckLatest)
    && (run'.pc == Done && run.pc != Confirm ==>
          run.kind.Configure? && Published(w, run.alias.version, run.base.snapshot))
    && (run'.pc == Confirm ==>
          && run.pc == UpdateAlias && w.alias == run.alias && run' == Goto(run, Confirm)
          && w'.alias.version == run.version && Published(w', run.version, run.base.snapshot)
          && w'.moves == w.moves + [Move(id, run.kind, run.alias, run.version, run.base.snapshot)])
    && (run'.pc == Done && run.pc == Confirm ==> w.alias.version == run.version && run' == Goto(run, Done))
  }

  lemma StartingChecked(w: World, id: nat, run: Run, choice: Choice)
    requires Kept(w) && id in w.runs && w.runs[id] == run && Starting(w, id, run, choice).runs[id] != run
    ensures Checked(w, id, run, Starting(w, id, run, choice), Starting(w, id, run, choice).runs[id])
  {
    assert RunKept(w, run);
    hide Kept, Published;
  }

  lemma ConfiguringChecked(w: World, id: nat, run: Run, choice: Choice)
    requires Kept(w) && id in w.runs && w.runs[id] == run && Configuring(w, id, run, choice).runs[id] != run
    ensures Checked(w, id, run, Configuring(w, id, run, choice), Configuring(w, id, run, choice).runs[id])
  {
    assert RunKept(w, run);
    assert ReadAlias(w, w.alias);
    hide Kept, Published, Newest;
  }

  lemma PromotingChecked(w: World, id: nat, run: Run, choice: Choice)
    requires Kept(w) && id in w.runs && w.runs[id] == run && Promoting(w, id, run, choice).runs[id] != run
    ensures Checked(w, id, run, Promoting(w, id, run, choice), Promoting(w, id, run, choice).runs[id])
  {
    assert RunKept(w, run);
    assert ReadAlias(w, w.alias);
    hide Kept;
  }

  lemma StagingChecked(w: World, id: nat, run: Run, choice: Choice)
    requires Kept(w) && id in w.runs && w.runs[id] == run && Staging(w, id, run, choice).runs[id] != run
    ensures Checked(w, id, run, Staging(w, id, run, choice), Staging(w, id, run, choice).runs[id])
  {
    assert RunKept(w, run);
    assert ReadAlias(w, w.alias);
    StagingPasses(w, id, run, choice);
    hide Kept, Published, Staging;
  }

  /** What a run can become while it stages, apart from passing a check. */
  predicate Staged(run: Run, run': Run) {
    run'.kind == run.kind && run'.pc in {WaitStaged, CheckAliasBeforePublish, WaitPublished, ReadCandidate, Failed}
  }

  lemma StagingPasses(w: World, id: nat, run: Run, choice: Choice)
    requires id in w.runs && w.runs[id] == run
    ensures id in Staging(w, id, run, choice).runs
    ensures
      var run' := Staging(w, id, run, choice).runs[id];
      || run' == run || Staged(run, run')
      || (run' == Goto(run, CheckLatestBeforePublish) && run.pc == CheckAliasBeforePublish
          && w.alias.revision == run.alias.revision)
      || (run' == Goto(run, Publish) && run.pc == CheckLatestBeforePublish && LatestUnchanged(w, run))
  {
    if run.pc == Publish {
      PublishingStages(w, id, run, choice);
    } else if run.pc == UpdateCode {
      UpdatingStages(w, id, run, choice);
    }
    hide Published, LatestUnchanged, Touch;
  }

  lemma PublishingStages(w: World, id: nat, run: Run, choice: Choice)
    requires id in w.runs && run.pc == Publish
    ensures id in Staging(w, id, run, choice).runs && Staged(run, Staging(w, id, run, choice).runs[id])
  {
    hide Published, Touch;
  }

  lemma UpdatingStages(w: World, id: nat, run: Run, choice: Choice)
    requires id in w.runs && run.pc == UpdateCode
    ensures id in Staging(w, id, run, choice).runs && Staged(run, Staging(w, id, run, choice).runs[id])
  {
    hide Touch;
  }

  /** A run passes a check of the alias only while the alias is the one it read, and a check of LATEST
      only while LATEST is ready and the one it read; it is done only past its last check. */
  lemma StepChecked(w: World, id: nat, choice: Choice)
    requires Kept(w) && id in w.runs && id in Step(w, Advance(id, choice)).runs
    requires Step(w, Advance(id, choice)).runs[id] != w.runs[id]
    ensures
      var w' := Step(w, Advance(id, choice));
      Checked(w, id, w.runs[id], w', w'.runs[id])
  {
    var run, w' := w.runs[id], Step(w, Advance(id, choice));
    AdvanceIs(w, id, choice);
    hide Kept, Checked, Step, Starting, Configuring, Promoting, Staging;
    if w' == Starting(w, id, run, choice) {
      StartingChecked(w, id, run, choice);
    } else if w' == Configuring(w, id, run, choice) {
      ConfiguringChecked(w, id, run, choice);
    } else if w' == Promoting(w, id, run, choice) {
      PromotingChecked(w, id, run, choice);
    } else {
      StagingChecked(w, id, run, choice);
    }
  }

  lemma RunsOfOthers(w: World, action: Action, id: nat)
    requires id in Step(w, action).runs && (id in w.runs ==> Step(w, action).runs[id] != w.runs[id])
    requires Step(w, action).runs[id].pc != GetAlias
    ensures action.Advance? && action.id == id && id in w.runs
  {
    match action
    case Begin(_, _) =>
    case ChangeLatest(_, _) =>
    case ChangeAlias(_) =>
    case Advance(other, choice) =>
      AdvanceLeavesOthers(w, other, choice, id);
      hide Step;
  }

  lemma AdvanceLeavesOthers(w: World, other: nat, choice: Choice, id: nat)
    ensures
      var end := Step(w, Advance(other, choice));
      && (id in end.runs <==> id in w.runs)
      && (id in w.runs && id != other ==> end.runs[id] == w.runs[id])
  {
    if other in w.runs {
      StartingLeavesOthers(w, other, w.runs[other], choice, id);
      ConfiguringLeavesOthers(w, other, w.runs[other], choice, id);
      PromotingLeavesOthers(w, other, w.runs[other], choice, id);
      StagingLeavesOthers(w, other, w.runs[other], choice, id);
      hide Starting, Configuring, Promoting, Staging;
    }
  }

  ghost predicate OthersLeft(w: World, end: World, other: nat, id: nat) {
    (id in end.runs <==> id in w.runs) && (id in w.runs && id != other ==> end.runs[id] == w.runs[id])
  }

  lemma StartingLeavesOthers(w: World, other: nat, run: Run, choice: Choice, id: nat)
    requires other in w.runs
    ensures OthersLeft(w, Starting(w, other, run, choice), other, id)
  {
  }

  lemma ConfiguringLeavesOthers(w: World, other: nat, run: Run, choice: Choice, id: nat)
    requires other in w.runs
    ensures OthersLeft(w, Configuring(w, other, run, choice), other, id)
  {
  }

  lemma PromotingLeavesOthers(w: World, other: nat, run: Run, choice: Choice, id: nat)
    requires other in w.runs
    ensures OthersLeft(w, Promoting(w, other, run, choice), other, id)
  {
  }

  lemma StagingLeavesOthers(w: World, other: nat, run: Run, choice: Choice, id: nat)
    requires other in w.runs
    ensures OthersLeft(w, Staging(w, other, run, choice), other, id)
  {
  }

  lemma AdvanceIs(w: World, id: nat, choice: Choice)
    requires id in w.runs
    ensures
      var w' := Step(w, Advance(id, choice));
      var run := w.runs[id];
      || w' == Starting(w, id, run, choice)
      || w' == Configuring(w, id, run, choice)
      || w' == Promoting(w, id, run, choice)
      || w' == Staging(w, id, run, choice)
  {
    hide Starting, Configuring, Promoting, Staging;
  }

  lemma {:induction false} AllRecorded(w: World, actions: seq<Action>)
    requires Kept(w) && Recorded(w)
    ensures Recorded(After(w, actions))
    decreases actions
  {
    if actions != [] {
      StepKept(w, actions[0]);
      StepRecorded(w, actions[0]);
      AllRecorded(Step(w, actions[0]), actions[1..]);
    }
  }

  // ----- the history of a run -----

  function At(w: World, actions: seq<Action>, n: nat): World
    requires n <= |actions|
  {
    After(w, actions[..n])
  }

  lemma {:induction false} AfterOneMore(w: World, actions: seq<Action>, action: Action)
    ensures After(w, actions + [action]) == Step(After(w, actions), action)
    decreases actions
  {
    hide Step;
    if actions == [] {
      assert ([action])[1..] == [];
      assert actions + [action] == [action];
    } else {
      AfterOneMore(Step(w, actions[0]), actions[1..], action);
      assert (actions + [action])[1..] == actions[1..] + [action];
    }
  }

  lemma AtNext(w: World, actions: seq<Action>, n: nat)
    requires n < |actions|
    ensures At(w, actions, n + 1) == Step(At(w, actions, n), actions[n])
  {
    assert actions[..n + 1] == actions[..n] + [actions[n]];
    AfterOneMore(w, actions[..n], actions[n]);
    hide Step, After;
  }

  lemma AtKept(w: World, actions: seq<Action>, n: nat)
    requires Initial(w) && n <= |actions|
    ensures Kept(At(w, actions, n)) && Recorded(At(w, actions, n))
  {
    InitialKept(w);
    AllKept(w, actions[..n]);
    AllRecorded(w, actions[..n]);
    hide After, Kept;
  }

  /** Step n was the run's own, and made it what it still is before step m. */
  ghost predicate Became(w: World, actions: seq<Action>, id: nat, n: nat, m: nat)
    requires n < m <= |actions|
  {
    && id in At(w, actions, n).runs && id in At(w, actions, n + 1).runs && id in At(w, actions, m).runs
    && At(w, actions, n + 1).runs[id] == At(w, actions, m).runs[id]
    && Checked(At(w, actions, n), id, At(w, actions, n).runs[id], At(w, actions, n + 1), At(w, actions, n + 1).runs[id])
  }

  /** A run past its first call has become what it is by a step of its own. */
  lemma {:induction false} LastOwnStep(w: World, actions: seq<Action>, id: nat, m: nat) returns (n: nat)
    requires Initial(w) && m <= |actions| && id in At(w, actions, m).runs && At(w, actions, m).runs[id].pc != GetAlias
    ensures n < m && Became(w, actions, id, n, m)
    decreases m
  {
    NothingYet(w, actions, id);
    hide Initial, After, Step, Checked, At;
    n := m - 1;
    AtNext(w, actions, n);
    AtKept(w, actions, n);
    if id in At(w, actions, n).runs && At(w, actions, n).runs[id] == At(w, actions, m).runs[id] {
      n := LastOwnStep(w, actions, id, n);
    } else {
      RunsOfOthers(At(w, actions, n), actions[n], id);
      StepChecked(At(w, actions, n), id, actions[n].choice);
    }
  }

  lemma NothingYet(w: World, actions: seq<Action>, id: nat)
    requires Initial(w)
    ensures id !in At(w, actions, 0).runs
  {
  }

  /** At step i the alias, and at step j LATEST, was what the run had read. */
  ghost predicate CheckedAt(w: World, actions: seq<Action>, run: Run, i: nat, j: nat) {
    && i < j < |actions|
    && At(w, actions, i).alias == run.alias
    && At(w, actions, j).latest.ready && At(w, actions, j).latest.revision == run.base.revision
    && At(w, actions, j).latest.snapshot == run.base.snapshot
  }

  /** What a step past a check amounts to. */
  lemma PastLatest(w: World, actions: seq<Action>, id: nat, n: nat, m: nat)
    requires n < m <= |actions| && Became(w, actions, id, n, m)
    ensures
      var run, run' := At(w, actions, n).runs[id], At(w, actions, m).runs[id];
      && (run'.pc == Done || run'.pc == Confirm || run'.pc == UpdateAlias ==> run' == Goto(run, run'.pc))
      && (run'.pc == Done ==> run.pc == Confirm || run.pc == CheckLatestCurrent)
      && (run'.pc == Confirm ==> run.pc == UpdateAlias)
      && (run'.pc == UpdateAlias ==> run.pc == CheckLatest)
      && (run.pc in {CheckLatest, CheckLatestCurrent} && run'.pc in {UpdateAlias, Done} ==>
            && At(w, actions, n).latest.ready && At(w, actions, n).latest.revision == run.base.revision
            && At(w, actions, n).latest.snapshot == run.base.snapshot)
      && (run'.pc in {CheckLatest, CheckLatestCurrent} ==>
            run' == Goto(run, run'.pc) && At(w, actions, n).alias == run.alias)
  {
    hide At;
  }

  /** The step at which a finished run found LATEST unchanged. */
  lemma LatestChecked(w: World, actions: seq<Action>, id: nat) returns (n: nat)
    requires Initial(w) && id in At(w, actions, |actions|).runs && At(w, actions, |actions|).runs[id].pc == Done
    ensures n < |actions| && id in At(w, actions, n).runs
    ensures
      var run, latest := At(w, actions, n).runs[id], At(w, actions, n).latest;
      && run == Goto(At(w, actions, |actions|).runs[id], run.pc) && run.pc in {CheckLatest, CheckLatestCurrent}
      && latest.ready && latest.revision == run.base.revision && latest.snapshot == run.base.snapshot
  {
    hide Initial, At, Became;
    n := LastOwnStep(w, actions, id, |actions|);
    PastLatest(w, actions, id, n, |actions|);
    InRuns(w, actions, id, n, |actions|);
    if At(w, actions, n).runs[id].pc == Confirm {
      var updating := LastOwnStep(w, actions, id, n);
      PastLatest(w, actions, id, updating, n);
      InRuns(w, actions, id, updating, n);
      n := LastOwnStep(w, actions, id, updating);
      PastLatest(w, actions, id, n, updating);
      InRuns(w, actions, id, n, updating);
    }
  }

  lemma InRuns(w: World, actions: seq<Action>, id: nat, n: nat, m: nat)
    requires n < m <= |actions| && Became(w, actions, id, n, m)
    ensures id in At(w, actions, n).runs
  {
  }

  /** Every finished run once found the alias to be still the one it had read, and after that LATEST. */
  lemma FinishedWasChecked(w: World, actions: seq<Action>, id: nat)
    requires Initial(w) && id in After(w, actions).runs && After(w, actions).runs[id].pc == Done
    ensures exists i, j :: CheckedAt(w, actions, After(w, actions).runs[id], i, j)
  {
    assert actions[..|actions|] == actions;
    assert At(w, actions, |actions|) == After(w, actions);
    hide Initial, After, At, Became;
    var n := LatestChecked(w, actions, id);
    var i := LastOwnStep(w, actions, id, n);
    PastLatest(w, actions, id, i, n);
    assert CheckedAt(w, actions, After(w, actions).runs[id], i, n);
  }

  /** In every interleaving: an alias update promotes exactly what its run verified; of the runs
      that read one alias revision at most one updates the alias; a deployment that finished has
      moved the alias to a version with its own code; a configuration promotion that finished has moved
      it to a version with the LATEST it read, or found the live version to be that already. */
  lemma PromotionSafety(w: World, actions: seq<Action>)
    requires Initial(w)
    ensures
      var end := After(w, actions);
      && (forall i :: 0 <= i < |end.moves| ==> MoveKept(end, end.moves[i]))
      && (forall i, j :: 0 <= i < j < |end.moves| ==> end.moves[i].read.revision != end.moves[j].read.revision)
      && (forall id :: id in end.runs && end.runs[id].pc == Done && end.runs[id].kind.Deploy? ==>
        HasMoved(end, id, end.runs[id]) && end.runs[id].version < |end.versions|
          && end.versions[end.runs[id].version].code == end.runs[id].kind.code)
      && (forall id :: id in end.runs && end.runs[id].pc == Done && end.runs[id].kind.Configure? ==>
        && ReadAlias(end, end.runs[id].alias) && ReadLatest(end, end.runs[id].base)
        && ((HasMoved(end, id, end.runs[id]) && Published(end, end.runs[id].version, end.runs[id].base.snapshot))
            || end.versions[end.runs[id].alias.version] == end.runs[id].base.snapshot))
  {
    InitialKept(w);
    AllKept(w, actions);
    AllRecorded(w, actions);
    var end := After(w, actions);
    hide After;
    forall id | id in end.runs && end.runs[id].pc == Done
      ensures Achieved(end, id, end.runs[id]) && RunKept(end, end.runs[id])
      ensures HasMoved(end, id, end.runs[id]) ==> Published(end, end.runs[id].version, end.runs[id].base.snapshot)
      ensures HasMoved(end, id, end.runs[id]) && end.runs[id].kind.Deploy? ==>
        end.versions[end.runs[id].version].code == end.runs[id].kind.code
    {
      var run := end.runs[id];
      if i :| 0 <= i < |end.moves| && end.moves[i] == Move(id, run.kind, run.alias, run.version, run.base.snapshot) {
        assert MoveKept(end, end.moves[i]);
      }
    }
    hide RunKept, MoveKept;
  }

  // ----- runs nobody disturbs -----

  /** The run makes n calls in a row and each is answered. */
  function Go(w: World, id: nat, n: nat): World
    decreases n
  {
    if n == 0 then w else Go(Step(w, Advance(id, Proceed)), id, n - 1)
  }

  lemma {:induction false} GoOn(w: World, id: nat, m: nat, n: nat)
    ensures Go(w, id, m + n) == Go(Go(w, id, m), id, n)
    decreases m
  {
    hide Step;
    if m > 0 {
      GoOn(Step(w, Advance(id, Proceed)), id, m - 1, n);
    }
  }

  lemma ChecksAlone(w: World, id: nat, run: Run)
    requires id in w.runs && w.runs[id] == run && run.pc == ReadCandidate
    requires Published(w, run.version, run.base.snapshot) && w.alias.revision == run.alias.revision
    requires LatestUnchanged(w, run)
    ensures Go(w, id, 3) == Put(w, id, Goto(run, UpdateAlias))
  {
    var w1 := Step(w, Advance(id, Proceed));
    assert w1 == Put(w, id, Goto(run, CheckAlias));
    var w2 := Step(w1, Advance(id, Proceed));
    assert w2 == Put(w, id, Goto(run, CheckLatest));
    var w3 := Step(w2, Advance(id, Proceed));
    assert w3 == Put(w, id, Goto(run, UpdateAlias));
    GoOne(w, id, 2);
    GoOne(w1, id, 1);
    GoOne(w2, id, 0);
    GoOne(w3, id, 0);
    hide Go, Step;
  }

  lemma MovesAlone(w: World, id: nat, run: Run)
    requires id in w.runs && w.runs[id] == run && run.pc == UpdateAlias && w.alias.revision == run.alias.revision
    ensures
      var end := Go(w, id, 2);
      && id in end.runs && end.runs[id] == Goto(run, Done) && end.alias.version == run.version
      && end.versions == w.versions && end.latest == w.latest
  {
    var w1 := Step(w, Advance(id, Proceed));
    assert w1.runs[id] == Goto(run, Confirm) && w1.alias.version == run.version && w1.versions == w.versions;
    var w2 := Step(w1, Advance(id, Proceed));
    assert w2.runs[id] == Goto(run, Done) && w2.(runs := w1.runs) == w1;
    GoOne(w, id, 1);
    GoOne(w1, id, 0);
    GoOne(w2, id, 0);
    hide Go, Step;
  }

  /** From the candidate on: the alias moves to it. */
  lemma PromotesAlone(w: World, id: nat, run: Run)
    requires id in w.runs && w.runs[id] == run && run.pc == ReadCandidate
    requires Published(w, run.version, run.base.snapshot) && w.alias.revision == run.alias.revision
    requires LatestUnchanged(w, run)
    ensures
      var end := Go(w, id, 5);
      && id in end.runs && end.runs[id] == Goto(run, Done) && end.alias.version == run.version
      && end.versions == w.versions && end.latest == w.latest
  {
    hide Go, Step, Published, LatestUnchanged;
    ChecksAlone(w, id, run);
    MovesAlone(Put(w, id, Goto(run, UpdateAlias)), id, Goto(run, UpdateAlias));
    GoOn(w, id, 3, 2);
  }

  lemma GoOne(w: World, id: nat, n: nat)
    ensures Go(w, id, n + 1) == Go(Step(w, Advance(id, Proceed)), id, n)
    ensures Go(w, id, 0) == w
  {
    hide Step;
  }

  /** A configuration promotion nobody disturbs ends with LATEST live: nothing moves when it is so
      already, and otherwise the alias goes to the newest version with the LATEST code and settings. */
  lemma ConfigureAlone(w: World, id: nat)
    requires id !in w.runs && w.latest.ready && w.alias.version < |w.versions|
    requires w.versions[w.alias.version].code == w.latest.snapshot.code && w.latest.snapshot in w.versions
    ensures
      var end := Go(Step(w, Begin(id, Configure)), id, 9);
      && id in end.runs && end.runs[id].pc == Done && end.versions == w.versions && end.alias.version < |w.versions|
      && w.versions[end.alias.version] == w.latest.snapshot
      && (w.versions[w.alias.version] == w.latest.snapshot ==> end.alias == w.alias && end.moves == w.moves)
      && (w.versions[w.alias.version] != w.latest.snapshot ==>
            forall v :: end.alias.version < v < |w.versions| ==> w.versions[v] != w.latest.snapshot)
  {
    var run := Run(Configure, GetAlias, w.alias, w.latest, 0);
    var w0 := Step(w, Begin(id, Configure));
    ConfigureReads(w, id);
    var w2 := Put(w0, id, Goto(run, ReadLive));
    hide Go, Step;
    GoOn(w0, id, 2, 7);
    if w.versions[w.alias.version] == w.latest.snapshot {
      AlreadyCurrent(w2, id, Goto(run, ReadLive));
    } else {
      var found := Newest(w.versions, w.latest.snapshot, |w.versions|);
      FindsVersion(w2, id, Goto(run, ReadLive));
      var found' := Goto(run.(version := found.value), ReadCandidate);
      GoOn(w2, id, 2, 5);
      PromotesAlone(Put(w2, id, found'), id, found');
    }
  }

  lemma ConfigureReads(w: World, id: nat)
    requires id !in w.runs && w.latest.ready
    ensures
      var w0 := Step(w, Begin(id, Configure));
      Go(w0, id, 2) == Put(w0, id, Run(Configure, ReadLive, w.alias, w.latest, 0))
  {
    var w0 := Step(w, Begin(id, Configure));
    var w1 := Step(w0, Advance(id, Proceed));
    assert w1 == Put(w0, id, Run(Configure, WaitLatest, w.alias, w.latest, 0));
    var w2 := Step(w1, Advance(id, Proceed));
    assert w2 == Put(w0, id, Run(Configure, ReadLive, w.alias, w.latest, 0));
    GoOne(w0, id, 1);
    GoOne(w1, id, 0);
    GoOne(w2, id, 0);
    hide Go, Step;
  }

  lemma AlreadyCurrent(w: World, id: nat, run: Run)
    requires id in w.runs && w.runs[id] == run && run.pc == ReadLive && run.alias == w.alias && run.base == w.latest
    requires w.latest.ready && Published(w, w.alias.version, w.latest.snapshot)
    ensures Go(w, id, 7) == Put(w, id, Goto(run, Done))
  {
    var w1 := Step(w, Advance(id, Proceed));
    assert w1 == Put(w, id, Goto(run, CheckAliasCurrent));
    var w2 := Step(w1, Advance(id, Proceed));
    assert w2 == Put(w, id, Goto(run, CheckLatestCurrent));
    var w3 := Step(w2, Advance(id, Proceed));
    assert w3 == Put(w, id, Goto(run, Done));
    GoOne(w, id, 6);
    GoOne(w1, id, 5);
    GoOne(w2, id, 4);
    StaysDone(w3, id, 4);
    hide Go, Step;
  }

  lemma {:induction false} StaysDone(w: World, id: nat, n: nat)
    requires id in w.runs && w.runs[id].pc == Done
    ensures Go(w, id, n) == w
    decreases n
  {
    if n > 0 {
      assert Step(w, Advance(id, Proceed)) == w;
      hide Step;
      StaysDone(w, id, n - 1);
    }
  }

  lemma FindsVersion(w: World, id: nat, run: Run)
    requires id in w.runs && w.runs[id] == run && run.pc == ReadLive && run.alias == w.alias && run.base == w.latest
    requires w.alias.version < |w.versions| && w.versions[w.alias.version] != w.latest.snapshot
    requires w.versions[w.alias.version].code == w.latest.snapshot.code && w.latest.snapshot in w.versions
    ensures
      var found := Newest(w.versions, w.latest.snapshot, |w.versions|);
      found.Some? && Go(w, id, 2) == Put(w, id, Goto(run.(version := found.value), ReadCandidate))
  {
    var w1 := Step(w, Advance(id, Proceed));
    assert w1 == Put(w, id, Goto(run, FindVersion));
    var found := Newest(w.versions, w.latest.snapshot, |w.versions|);
    assert found.Some?;
    var w2 := Step(w1, Advance(id, Proceed));
    assert w2 == Put(w, id, Goto(run.(version := found.value), ReadCandidate));
    GoOne(w, id, 1);
    GoOne(w1, id, 0);
    GoOne(w2, id, 0);
    hide Go, Step, Newest;
  }

  /** LATEST gets ready again with the staged code. */
  function Settle(w: World): World {
    Step(w, ChangeLatest(w.latest.snapshot, true))
  }

  /** A deployment nobody disturbs ends with its code live, under the settings LATEST had. */
  lemma DeployAlone(w: World, id: nat, code: string)
    requires id !in w.runs && w.latest.ready
    ensures
      var end := Go(Settle(Go(Step(w, Begin(id, Deploy(code))), id, 3)), id, 10);
      && id in end.runs && end.runs[id].pc == Done && end.alias.version < |end.versions|
      && end.versions[end.alias.version] == Snapshot(code, w.latest.snapshot.settings)
      && end.versions == w.versions + [Snapshot(code, w.latest.snapshot.settings)]
  {
    var staged := Stages(w, id, code);
    hide Go, Step, Settle;
    var published := Publishes(staged, id, staged.runs[id]);
    GoOn(staged, id, 5, 5);
    PromotesAlone(published, id, published.runs[id]);
  }

  lemma Stages(w: World, id: nat, code: string) returns (staged: World)
    requires id !in w.runs && w.latest.ready
    ensures staged == Settle(Go(Step(w, Begin(id, Deploy(code))), id, 3))
    ensures id in staged.runs && staged.runs[id] == Run(Deploy(code), WaitStaged, w.alias, w.latest, 0)
    ensures staged.alias == w.alias && staged.latest.ready && staged.versions == w.versions
    ensures staged.latest.snapshot == Snapshot(code, w.latest.snapshot.settings)
  {
    var w0 := Step(w, Begin(id, Deploy(code)));
    var w1 := Step(w0, Advance(id, Proceed));
    assert w1 == Put(w0, id, Run(Deploy(code), WaitLatest, w.alias, w.latest, 0));
    var w2 := Step(w1, Advance(id, Proceed));
    assert w2 == Put(w0, id, Run(Deploy(code), UpdateCode, w.alias, w.latest, 0));
    var w3 := Step(w2, Advance(id, Proceed));
    assert w3.runs[id] == Run(Deploy(code), WaitStaged, w.alias, w.latest, 0);
    staged := Settle(w3);
    GoOne(w0, id, 2);
    GoOne(w1, id, 1);
    GoOne(w2, id, 0);
    GoOne(w3, id, 0);
    hide Go;
  }

  lemma Publishes(w: World, id: nat, run: Run) returns (published: World)
    requires id in w.runs && w.runs[id] == run && run.pc == WaitStaged && run.kind.Deploy? && run.alias == w.alias
    requires w.latest.ready && w.latest.snapshot.code == run.kind.code
    ensures published == Go(w, id, 5)
    ensures id in published.runs && published.runs[id].pc == ReadCandidate && published.runs[id].alias == run.alias
    ensures published.runs[id].base == published.latest && published.latest.ready && published.alias == w.alias
    ensures published.runs[id].version == |w.versions| && published.versions == w.versions + [w.latest.snapshot]
    ensures published.latest.snapshot == w.latest.snapshot
  {
    var w1 := Step(w, Advance(id, Proceed));
    assert w1 == Put(w, id, Goto(run.(base := w.latest), CheckAliasBeforePublish));
    var w2 := Step(w1, Advance(id, Proceed));
    assert w2 == Put(w, id, Goto(run.(base := w.latest), CheckLatestBeforePublish));
    var w3 := Step(w2, Advance(id, Proceed));
    assert w3 == Put(w, id, Goto(run.(base := w.latest), Publish));
    var w4 := Step(w3, Advance(id, Proceed));
    assert w4.runs[id] == Goto(run.(base := w.latest, version := |w.versions|), WaitPublished);
    published := Step(w4, Advance(id, Proceed));
    GoOne(w, id, 4);
    GoOne(w1, id, 3);
    GoOne(w2, id, 2);
    GoOne(w3, id, 1);
    GoOne(w4, id, 0);
    GoOne(published, id, 0);
    hide Go;
  }
}
