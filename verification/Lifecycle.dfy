/** Whole runs: polls, shutdowns, crashes and restarts in any order, over one disk and one set of files. */
module Lifecycle {
  import opened Exceptions
  import opened Octets
  import opened Contract
  import opened Documents
  import opened FileSystem
  import opened Foreign
  import opened Protocol
  import opened Pipeline
  import opened RejectionDocuments
  import opened Serialization
  import opened SourceLogs
  import opened Origins
  import opened CollectorRuntime
  import OutboxPublisher
  import RejectedEventPublisher
  import BoundedEventQueue
  import FileReader
  import Lines

  datatype Configuration = Configuration(
    collectorId: Text, library: Library, keyId: Text, key: Text, settings: seq<SourceSettings>,
    batchSize: nat, batchTimeout: nat, queueEvents: nat, queueBytes: nat)

  /** What the configuration loader accepts. */
  ghost predicate ValidConfiguration(c: Configuration) {
    && Lawful(c.library) && Credentials(c.collectorId, c.keyId) && DistinctIds(c.settings)
    && 1 <= c.batchSize <= MAXIMUM_EVENTS_PER_BATCH && 1 <= c.batchTimeout <= 5
    && 2 * c.batchSize <= c.queueEvents && 2 * MAXIMUM_BATCH_BYTES <= c.queueBytes <= BoundedEventQueue.MAXIMUM_U64
  }

  /** What the operator, the files and the machine do; a crash loses everything in memory. */
  datatype Action =
    | StartUp
    | Cycle(now: int, views: SourceId -> FileReader.Views)
    | ShutDown(now: int)
    | Crash

  method Configure(c: Configuration, disk: Disk, identifiers: Identifiers) returns (runtime: Runtime)
    requires ValidConfiguration(c)
    ensures fresh(runtime) && fresh(runtime.queue) && fresh(runtime.assembler)
    ensures runtime.Valid() && runtime.Idle()
    ensures runtime.collectorId == c.collectorId && runtime.disk == disk && runtime.identifiers == identifiers
            && runtime.settings == c.settings
    ensures runtime.library == c.library && runtime.batchSize == c.batchSize && runtime.FitsTwo()
    ensures !runtime.inverted && !runtime.stopping && !runtime.ahead
  {
    runtime := new Runtime(c.collectorId, c.library, c.keyId, c.key, disk, identifiers, c.settings, c.batchSize,
                           c.batchTimeout, c.queueEvents, c.queueBytes);
  }

  /** The disk holds a sound state, and every identifier in use was handed out. */
  ghost predicate Sealed(collectorId: Text, log: Log, disk: Disk, identifiers: Identifiers, held: Option<Document>)
    reads disk, identifiers
  {
    && Sound(collectorId, log, disk.View(), held) && Issued(identifiers.next, disk.View())
    && (held.Some? ==> IsPublication(held.value) && IdOf(held.value) < identifiers.next)
  }

  /** A new installation. */
  lemma EmptyDiskIsSound(collectorId: Text, log: Log, disk: Disk, identifiers: Identifiers)
    requires Ordered(log)
    requires disk.View() == Durable(map[], {}, [], {})
    ensures Sealed(collectorId, log, disk, identifiers, None)
  {
    hide Ordered;
    assert forall s: SourceId :: Of([], s) == [];
  }

  /** Every record of the log that the checkpoint covers has become visible in exactly one publication. */
  ghost predicate ExactlyOnceThroughout(log: Log, d: Durable) {
    forall s, i | s in log && 0 <= i < |log[s]| && s in CheckpointMarks(d.files) ::
      OffsetOf(CheckpointMarks(d.files)[s]).Some? && log[s][i].end <= OffsetOf(CheckpointMarks(d.files)[s]).value.1 ==>
        OnlyIn(d.visible, log[s][i])
  }

  lemma SoundIsExactlyOnce(collectorId: Text, log: Log, d: Durable, held: Option<Document>)
    requires Sound(collectorId, log, d, held)
    ensures ExactlyOnceThroughout(log, d)
    ensures InOrder(log, d.committed)
  {
    forall s, i | s in log && 0 <= i < |log[s]| && s in CheckpointMarks(d.files)
                  && OffsetOf(CheckpointMarks(d.files)[s]).Some?
                  && log[s][i].end <= OffsetOf(CheckpointMarks(d.files)[s]).value.1
      ensures OnlyIn(d.visible, log[s][i])
    {
      SoundSource(collectorId, log, d, held, s, i);
      ExactlyOnce(collectorId, log, d, held, log[s][i]);
    }
  }

  lemma SoundSource(collectorId: Text, log: Log, d: Durable, held: Option<Document>, s: SourceId, i: nat)
    requires Sound(collectorId, log, d, held) && s in log && i < |log[s]|
    ensures log[s][i].source == s
  {
  }

  ghost predicate Ours(runtime: Runtime, c: Configuration, disk: Disk, identifiers: Identifiers)
    reads runtime, runtime.readers, runtime.queue, runtime.assembler
  {
    && runtime.Valid() && runtime.ReadersOk() && runtime.collectorId == c.collectorId && runtime.library == c.library
    && runtime.disk == disk && runtime.identifiers == identifiers && runtime.settings == c.settings && runtime.FitsTwo()
  }

  /** What a running incarnation owns. */
  ghost function Parts(running: Runtime?): set<object>
    reads running
  {
    if running == null then {} else {running, running.queue, running.assembler} + set r | r in running.readers
  }

  lemma PartsAre(running: Runtime)
    ensures Parts(running) == {running, running.queue, running.assembler} + set r | r in running.readers
    ensures forall i | 0 <= i < |running.readers| :: running.readers[i] in Parts(running)
  {
  }

  /** The running incarnation, if there is one, is this collector's. */
  ghost predicate Alive(c: Configuration, running: Runtime?, disk: Disk, identifiers: Identifiers)
    reads running, Parts(running)
  {
    running != null ==> Ours(running, c, disk, identifiers)
  }

  /** No record was overtaken: the running incarnation is in step with the files, or else the disk is sound. */
  ghost predicate Kept(c: Configuration, running: Runtime?, disk: Disk, identifiers: Identifiers, files: Files,
          left: Option<Document>)
    reads running, Parts(running), disk, identifiers
    reads if running == null then {} else {running.disk, running.identifiers}
  {
    if running == null then Sealed(c.collectorId, LogOf(files), disk, identifiers, left)
    else !running.inverted && running.InStep(files)
  }

  lemma InStepIsSaneNow(runtime: Runtime, files: Files)
    ensures runtime.InStep(files) ==> runtime.Sane(files)
    ensures runtime.Sane(files) && !runtime.inverted ==> runtime.Good(LogOf(files))
  {
    hide Runtime.Good, LogOf, Runtime.AllTraced, Runtime.Reading;
  }

  lemma FitsTwoIsSpacious(runtime: Runtime)
    ensures runtime.FitsTwo() ==> runtime.Spacious()
  {
  }

  /** What is left on the disk when an incarnation ends, by whatever cause. */
  ghost method LeavesHeld(runtime: Runtime, c: Configuration, files: Files) returns (held: Option<Document>)
    requires runtime.Valid() && !runtime.inverted && runtime.Sane(files) && runtime.collectorId == c.collectorId
    ensures Sealed(c.collectorId, LogOf(files), runtime.disk, runtime.identifiers, held)
  {
    hide Sound, LogOf, Issued, Runtime.Valid, Runtime.Good;
    InStepIsSaneNow(runtime, files);
    runtime.GoodIsRestartable(LogOf(files));
    held := runtime.LeftHeld(LogOf(files));
  }

  /** The files' sources, configured as the theorems assume. */
  ghost predicate Sourced(c: Configuration, files: Files) {
    && NamedFiles(files)
    && (forall i | 0 <= i < |c.settings| :: c.settings[i].enabled ==>
          c.settings[i].fileDrop && c.settings[i].startPosition.Oldest? && c.settings[i].id in files)
    && (exists i :: 0 <= i < |c.settings| && c.settings[i].enabled)
  }

  /** While nothing runs, or between two polls, the files may grow. */
  lemma KeptGrows(c: Configuration, running: Runtime?, disk: Disk, identifiers: Identifiers, files: Files,
          longer: Files, left: Option<Document>)
    requires Kept(c, running, disk, identifiers, files, left) && Longer(files, longer)
    ensures Kept(c, running, disk, identifiers, longer, left)
    ensures running != null ==> running.Low(files)
  {
    hide Sound, LogOf, Issued, Longer, Runtime.Valid, Runtime.ReadersOk, Runtime.InStep;
    if running == null {
      LogGrows(files, longer);
      LogIsOrdered(longer);
      SoundGrows(c.collectorId, LogOf(files), LogOf(longer), disk.View(), left);
    } else {
      running.InStepGrows(files, longer);
    }
  }

  method Boot(c: Configuration, disk: Disk, identifiers: Identifiers, ghost files: Files, ghost left: Option<Document>)
    returns (next: Runtime?, ghost nowLeft: Option<Document>)
    requires ValidConfiguration(c)
    modifies disk, identifiers
    ensures Alive(c, next, disk, identifiers) && fresh(Parts(next))
    ensures next != null ==> !next.inverted
    ensures Sourced(c, files) && old(Kept(c, null, disk, identifiers, files, left)) ==>
              && Kept(c, next, disk, identifiers, files, nowLeft)
              && (disk.healthy ==> (next != null <==> Reloadable(left)))
    ensures next != null ==>
              next.Still() && next.started && !next.stopping && 1 <= |next.readers| <= |c.settings|
              && next.batchSize == c.batchSize
    ensures Sourced(c, files) && old(Kept(c, null, disk, identifiers, files, left)) && next != null ==>
              disk.committed == next.Ledger()
    ensures old(NothingHeld(disk.files)) ==> disk.View() == old(disk.View())
    ensures disk.healthy == old(disk.healthy)
    ensures next != null ==> forall i | 0 <= i < |next.readers| :: fresh(next.readers[i])
  {
    hide Sound, ValidConfiguration, Issued, LogOf, NamedFiles, Runtime.Valid, Runtime.InStep, Runtime.ReadersOk,
      Runtime.Idle, Runtime.Counted, Runtime.Sane, Runtime.HeldCount, Runtime.Doomed, Runtime.Stalled, Runtime.Pending,
      Runtime.Ledger, Reparsable, Runtime.Still;
    var runtime := Configure(c, disk, identifiers);
    IdleIsStill(runtime);
    NothingHeldIs(disk.files);
    var started;
    started, nowLeft := runtime.Start(files, left);
    next := if started.Success? then runtime else null;
  }

  /** No publication waits in the outbox or among the pending rejections. */
  ghost predicate NothingHeld(files: map<Path, Content>) {
    forall p: Path | p in files :: !IsHold(p)
  }

  lemma NothingHeldIs(files: map<Path, Content>)
    ensures NothingHeld(files) ==>
              OutboxPublisher.SealedPaths(files) == {} && RejectedEventPublisher.PendingPaths(files) == {}
    ensures Reloadable(None) && NothingHeld(map[])
  {
    assert forall p | p in OutboxPublisher.SealedPaths(files) :: IsHold(p);
    assert forall p | p in RejectedEventPublisher.PendingPaths(files) :: IsHold(p);
  }

  lemma IdleIsStill(runtime: Runtime)
    ensures runtime.Idle() && !runtime.ahead && !runtime.inverted ==> runtime.Still()
  {
  }

  /** One poll; an incarnation that throws, or that never returns, is gone. */
  method RunCycle(c: Configuration, running: Runtime, now: int, views: SourceId -> FileReader.Views,
          ghost before: Files, ghost files: Files, ghost overtaken: bool)
    returns (next: Runtime?, ghost left: Option<Document>, ghost nowOvertaken: bool, ghost diverged: bool)
    requires Ours(running, c, running.disk, running.identifiers) && NamedFiles(files) && Legible(views, before, files)
    requires overtaken || (Kept(c, running, running.disk, running.identifiers, files, None) && running.Low(before))
    modifies running.disk, running.identifiers, Parts(running)
    ensures Alive(c, next, running.disk, running.identifiers)
    ensures nowOvertaken == (overtaken || running.inverted)
    ensures nowOvertaken || Kept(c, next, running.disk, running.identifiers, files, left)
    ensures !overtaken && NothingToOvertake(c.library, files) ==> !nowOvertaken
    ensures diverged ==> nowOvertaken
    ensures next == null || (next == running && Parts(next) == old(Parts(running)))
  {
    hide *;
    OursIs(running, c, running.disk, running.identifiers);
    InStepIsSaneNow(running, files);
    FitsTwoIsSpacious(running);
    KeptIs(c, running, running.disk, running.identifiers, files, None);
    running.FollowingIs(views, before, files);
    PartsAre(running);
    var polled := running.PollOnce(now, views, before, files);
    PartsAre(running);
    OursIs(running, c, running.disk, running.identifiers);
    AliveIs(c, running, running.disk, running.identifiers);
    AliveIs(c, null, running.disk, running.identifiers);
    KeptIs(c, running, running.disk, running.identifiers, files, None);
    nowOvertaken, diverged := overtaken || running.inverted, polled == Failure(Divergence);
    left := None;
    if polled.Success? {
      return running, left, nowOvertaken, diverged;
    }
    next := null;
    if !nowOvertaken {
      left := LeavesHeld(running, c, files);
      KeptIs(c, null, running.disk, running.identifiers, files, left);
    }
  }

  lemma OursIs(runtime: Runtime, c: Configuration, disk: Disk, identifiers: Identifiers)
    ensures Ours(runtime, c, disk, identifiers) <==>
              && runtime.Valid() && runtime.ReadersOk() && runtime.collectorId == c.collectorId
              && runtime.library == c.library
              && runtime.disk == disk && runtime.identifiers == identifiers && runtime.settings == c.settings
              && runtime.FitsTwo()
  {
    hide Runtime.Valid, Runtime.ReadersOk, Runtime.FitsTwo;
  }

  lemma AliveIs(c: Configuration, running: Runtime?, disk: Disk, identifiers: Identifiers)
    ensures Alive(c, running, disk, identifiers) <==> (running != null ==> Ours(running, c, disk, identifiers))
    ensures running == null ==> Parts(running) == {}
  {
    hide Ours;
  }

  lemma KeptIs(c: Configuration, running: Runtime?, disk: Disk, identifiers: Identifiers, files: Files,
          left: Option<Document>)
    ensures Kept(c, running, disk, identifiers, files, left) <==>
              if running == null then Sealed(c.collectorId, LogOf(files), disk, identifiers, left)
              else !running.inverted && running.InStep(files)
  {
    hide Sealed, Runtime.InStep, LogOf;
  }

  method Stop(c: Configuration, running: Runtime, now: int, ghost files: Files, ghost overtaken: bool)
    returns (ghost left: Option<Document>, ghost nowOvertaken: bool, ghost diverged: bool)
    requires Ours(running, c, running.disk, running.identifiers) && NamedFiles(files)
    requires overtaken || Kept(c, running, running.disk, running.identifiers, files, None)
    modifies running.disk, running.identifiers, Parts(running)
    ensures nowOvertaken == (overtaken || running.inverted)
    ensures nowOvertaken || Kept(c, null, running.disk, running.identifiers, files, left)
    ensures !overtaken && NothingToOvertake(c.library, files) ==> !nowOvertaken
    ensures diverged ==> nowOvertaken
  {
    hide *;
    OursIs(running, c, running.disk, running.identifiers);
    InStepIsSaneNow(running, files);
    FitsTwoIsSpacious(running);
    KeptIs(c, running, running.disk, running.identifiers, files, None);
    PartsAre(running);
    var stopped := running.Shutdown(now, files);
    nowOvertaken, diverged := overtaken || running.inverted, stopped == Failure(Divergence);
    left := None;
    if !nowOvertaken {
      left := LeavesHeld(running, c, files);
      KeptIs(c, null, running.disk, running.identifiers, files, left);
    }
  }

  /** What the hypotheses ask of one action, between what the files held before it and what they hold after. */
  ghost predicate Ordinary(action: Action, before: Files, files: Files) {
    Longer(before, files) && (action.Cycle? ==> Legible(action.views, before, files))
  }

  /**
   * One action of a run. An incarnation that throws is gone. Unless draining the queue overtook a refused event,
   * the invariant stands after it, and a file in which there is nothing to overtake rules that out.
   */
  method Advance(c: Configuration, action: Action, running: Runtime?, disk: Disk, identifiers: Identifiers,
          ghost before: Files, ghost files: Files, ghost left: Option<Document>, ghost overtaken: bool)
    returns (next: Runtime?, ghost nowLeft: Option<Document>, ghost nowOvertaken: bool, ghost diverged: bool)
    requires ValidConfiguration(c) && Sourced(c, files) && Ordinary(action, before, files)
    requires Alive(c, running, disk, identifiers) && (overtaken || Kept(c, running, disk, identifiers, before, left))
    modifies disk, identifiers, Parts(running)
    ensures Alive(c, next, disk, identifiers) && (nowOvertaken || Kept(c, next, disk, identifiers, files, nowLeft))
    ensures nowOvertaken == (overtaken || (running != null && running.inverted))
    ensures !overtaken && NothingToOvertake(c.library, files) ==> !nowOvertaken
    ensures diverged ==> nowOvertaken
    ensures action.Crash? ==> next == null && disk.View() == old(disk.View())
    ensures fresh(Parts(next) - old(Parts(running)))
  {
    hide Sound, ValidConfiguration, Issued, LogOf, NamedFiles, Runtime.Valid, Runtime.InStep, Runtime.ReadersOk,
      Runtime.Idle, Runtime.Counted, Runtime.Sane, Runtime.HeldCount, Runtime.Doomed, Runtime.Stalled, Runtime.Pending,
      Runtime.Ledger, Runtime.Low, Kept, Sealed, Runtime.Still, Legible, NothingToOvertake, Longer, Runtime.FitsTwo,
      Reparsable;
    if !overtaken {
      KeptGrows(c, running, disk, identifiers, before, files, left);
    }
    KeptIs(c, running, disk, identifiers, files, left);
    next, nowLeft, nowOvertaken, diverged := running, left, overtaken || (running != null && running.inverted), false;
    match action {
      case StartUp =>
        if running == null {
          next, nowLeft := Boot(c, disk, identifiers, files, left);
        }
      case Cycle(now, views) =>
        if running != null {
          KeptIs(c, running, disk, identifiers, files, None);
          next, nowLeft, nowOvertaken, diverged := RunCycle(c, running, now, views, before, files, overtaken);
        }
      case ShutDown(now) =>
        if running != null {
          KeptIs(c, running, disk, identifiers, files, None);
          nowLeft, nowOvertaken, diverged := Stop(c, running, now, files, overtaken);
          next := null;
        }
      case Crash =>
        if running != null && !nowOvertaken {
          InStepIsSaneNow(running, files);
          nowLeft := LeavesHeld(running, c, files);
        }
        next := null;
        KeptIs(c, next, disk, identifiers, files, nowLeft);
    }
  }

  /** `contents[i]` is what the files hold before the i-th action of the schedule. */
  ghost predicate OrdinaryRun(c: Configuration, schedule: seq<Action>, contents: seq<Files>) {
    && |contents| == |schedule| + 1
    && (forall i | 0 <= i < |contents| :: Sourced(c, contents[i]))
    && (forall i | 0 <= i < |schedule| :: Ordinary(schedule[i], contents[i], contents[i + 1]))
  }

  lemma {:induction false} NothingToOvertakeSoFar(c: Configuration, schedule: seq<Action>, contents: seq<Files>, i: nat)
    requires OrdinaryRun(c, schedule, contents) && i <= |schedule|
    requires NothingToOvertake(c.library, contents[|schedule|])
    ensures NothingToOvertake(c.library, contents[i])
    decreases |schedule| - i
  {
    hide NothingToOvertake, Longer, Sourced, Legible;
    if i < |schedule| {
      NothingToOvertakeSoFar(c, schedule, contents, i + 1);
      assert Ordinary(schedule[i], contents[i], contents[i + 1]);
      NothingToOvertakeBefore(c.library, contents[i], contents[i + 1]);
    }
  }

  /**
   * Crash-safe exactly-once. From an empty disk, whatever the schedule of starts, polls, shutdowns and crashes, and
   * whichever durable steps fail: when the files only grow and nothing fails once a file is open, then unless a
   * refused event was overtaken, every record at or before a source's checkpoint is visible in exactly one
   * publication, commits follow the files' order, and no poll or shutdown ran for ever. Nothing is overtaken when no
   * record whose event batches refuse is followed in its file by one that maps to an event.
   */
  method Supervise(c: Configuration, schedule: seq<Action>, disk: Disk, identifiers: Identifiers,
          ghost contents: seq<Files>)
    returns (ghost left: Option<Document>, ghost overtaken: bool, ghost diverged: bool)
    requires ValidConfiguration(c) && OrdinaryRun(c, schedule, contents)
    requires disk.View() == Durable(map[], {}, [], {})
    modifies disk, identifiers
    ensures var log := LogOf(contents[|schedule|]);
            || overtaken
            || (Sealed(c.collectorId, log, disk, identifiers, left) && ExactlyOnceThroughout(log, disk.View())
                && InOrder(log, disk.committed))
    ensures NothingToOvertake(c.library, contents[|schedule|]) ==> !overtaken
    ensures diverged ==> overtaken
  {
    hide Sound, Ordered, InOrder, ExactlyOnceThroughout, ValidConfiguration, Issued, LogOf, Sourced, Ordinary,
      Runtime.Valid, Runtime.InStep, Runtime.ReadersOk, Kept, Sealed, NothingToOvertake, Ours, Runtime.Sane;
    LogIsOrdered(contents[0]);
    EmptyDiskIsSound(c.collectorId, LogOf(contents[0]), disk, identifiers);
    left, overtaken, diverged := None, false, false;
    var running: Runtime? := null;
    KeptIs(c, running, disk, identifiers, contents[0], left);
    ghost var nothing := NothingToOvertake(c.library, contents[|schedule|]);
    for i := 0 to |schedule|
      invariant Alive(c, running, disk, identifiers)
                && (overtaken || Kept(c, running, disk, identifiers, contents[i], left))
      invariant nothing ==> !overtaken
      invariant diverged ==> overtaken
      invariant fresh(Parts(running))
    {
      if nothing {
        NothingToOvertakeSoFar(c, schedule, contents, i + 1);
      }
      ghost var divergedNow;
      running, left, overtaken, divergedNow :=
        Advance(c, schedule[i], running, disk, identifiers, contents[i], contents[i + 1], left, overtaken);
      diverged := diverged || divergedNow;
    }
    ghost var files := contents[|schedule|];
    KeptIs(c, running, disk, identifiers, files, left);
    if !overtaken {
      if running != null {
        OursIs(running, c, disk, identifiers);
        InStepIsSaneNow(running, files);
        left := LeavesHeld(running, c, files);
      }
      SealedIsExactlyOnce(c.collectorId, LogOf(files), disk, identifiers, left);
    }
  }

  lemma SealedIsExactlyOnce(collectorId: Text, log: Log, disk: Disk, identifiers: Identifiers, held: Option<Document>)
    requires Sealed(collectorId, log, disk, identifiers, held)
    ensures ExactlyOnceThroughout(log, disk.View()) && InOrder(log, disk.committed)
  {
    hide Sound, Issued;
    SoundIsExactlyOnce(collectorId, log, disk.View(), held);
  }

  // ---------------------------------------------------------------- a rejection that was overtaken

  /** The rejection waits alone on the disk, and the checkpoint stands after its record. */
  ghost predicate Stranded(disk: Disk, rejection: RejectedEvent)
    reads disk
  {
    StrandedIn(disk.files, rejection)
  }

  ghost predicate StrandedIn(files: map<Path, Content>, rejection: RejectedEvent) {
    && RejectedEventPublisher.OnlyPending(files, rejection) && OutboxPublisher.SealedPaths(files) == {}
    && var span := rejection.source;
       AnyRegression(CheckpointMarks(files), map[span.source := RejectionMark(span.identity, span.start, span.end)])
  }

  lemma StuckStaysStranded(before: Durable, after: Durable, rejection: RejectedEvent)
    requires RejectedEventPublisher.OnlyPending(before.files, rejection)
             && OutboxPublisher.SealedPaths(before.files) == {}
    requires RejectedEventPublisher.StuckHolding(before, after, rejection)
    ensures RejectedEventPublisher.OnlyPending(after.files, rejection) && OutboxPublisher.SealedPaths(after.files) == {}
    ensures after.committed == before.committed && after.landed == before.landed
    ensures CheckpointMarks(after.files) == CheckpointMarks(before.files)
    ensures Shown(before.visible, after.visible, RejectionDocument(rejection))
  {
    var path := PendingPath(rejection.rejectionId);
    assert path in RejectedEventPublisher.PendingPaths(before.files);
    assert before.files[path := Whole(RejectionDocument(rejection))] == before.files;
    assert RejectedEventPublisher.Stuck(before, after, rejection);
    assert forall p: Path | p.PendingPath? || p.SealedPath? :: p in after.files <==> p in before.files by {
      assert forall p: Path | p.PendingPath? || p.SealedPath? :: IsHold(p);
    }
    assert RejectedEventPublisher.PendingPaths(after.files) == RejectedEventPublisher.PendingPaths(before.files);
    assert OutboxPublisher.SealedPaths(after.files) == OutboxPublisher.SealedPaths(before.files);
    assert IsHold(path) && after.files[path] == before.files[path];
  }

  /** An incarnation, if there is one, holds the stranded rejection as its pending publication. */
  ghost predicate Haunted(c: Configuration, running: Runtime?, disk: Disk, identifiers: Identifiers,
          rejection: RejectedEvent)
    reads running, Parts(running), disk, if running == null then {} else {running.disk}
  {
    && Stranded(disk, rejection)
    && (running != null ==>
          && Ours(running, c, disk, identifiers)
          && running.Doomed() && running.pendingRejection == Some(rejection))
  }

  method Languish(c: Configuration, action: Action, running: Runtime?, disk: Disk, identifiers: Identifiers,
          ghost rejection: RejectedEvent)
    returns (next: Runtime?)
    requires ValidConfiguration(c) && Haunted(c, running, disk, identifiers, rejection)
    modifies disk, identifiers, Parts(running)
    ensures Haunted(c, next, disk, identifiers, rejection)
    ensures disk.committed == old(disk.committed) && disk.landed == old(disk.landed)
    ensures Shown(old(disk.visible), disk.visible, RejectionDocument(rejection))
    ensures fresh(Parts(next) - old(Parts(running)))
  {
    hide *;
    HauntedIs(c, running, disk, identifiers, rejection);
    AliveIs(c, running, disk, identifiers);
    AliveIs(c, null, disk, identifiers);
    if running != null {
      OursIs(running, c, disk, identifiers);
      PartsAre(running);
    }
    ghost var before := disk.View();
    ViewIs(disk);
    StrandedIs(disk, rejection);
    SameShown(disk.visible, RejectionDocument(rejection));
    next := running;
    match action {
      case StartUp =>
        if running == null {
          var runtime := Configure(c, disk, identifiers);
          StrandedIsAbandoned(runtime, rejection);
          var started, left := runtime.Start(map[], None);
          StuckIsHolding(before, disk.View(), rejection);
          StaysStranded(before, disk, rejection);
        }
      case Cycle(now, views) =>
        if running != null {
          var polled := running.PollOnce(now, views, map[], map[]);
          StaysStranded(before, disk, rejection);
          PartsAre(running);
          OursIs(running, c, disk, identifiers);
          AliveIs(c, running, disk, identifiers);
          next := if polled.Success? then running else null;
        }
      case ShutDown(now) =>
        if running != null {
          var stopped := running.Shutdown(now, map[]);
          StaysStranded(before, disk, rejection);
          next := null;
        }
      case Crash =>
        next := null;
    }
    AliveIs(c, next, disk, identifiers);
    HauntedIs(c, next, disk, identifiers, rejection);
  }

  lemma ViewIs(disk: Disk)
    ensures disk.View() == Durable(disk.files, disk.visible, disk.committed, disk.landed)
  {
  }

  lemma HauntedIs(c: Configuration, running: Runtime?, disk: Disk, identifiers: Identifiers, rejection: RejectedEvent)
    ensures Haunted(c, running, disk, identifiers, rejection) <==>
              && Stranded(disk, rejection) && Alive(c, running, disk, identifiers)
              && (running != null ==> running.Doomed() && running.pendingRejection == Some(rejection))
  {
    hide Stranded, Ours, Runtime.Doomed;
  }

  lemma StrandedIs(disk: Disk, rejection: RejectedEvent)
    ensures Stranded(disk, rejection) <==> StrandedIn(disk.files, rejection)
  {
    hide StrandedIn;
  }

  lemma SameShown(visible: set<Document>, document: Document)
    ensures Shown(visible, visible, document)
  {
  }

  lemma StrandedIsAbandoned(runtime: Runtime, rejection: RejectedEvent)
    ensures Stranded(runtime.disk, rejection) <==> runtime.Abandoned(rejection)
  {
    hide AnyRegression, RejectedEventPublisher.OnlyPending;
  }

  lemma StaysStranded(before: Durable, disk: Disk, rejection: RejectedEvent)
    requires StrandedIn(before.files, rejection)
    requires RejectedEventPublisher.StuckHolding(before, disk.View(), rejection)
    ensures Stranded(disk, rejection)
    ensures disk.committed == before.committed && disk.landed == before.landed
    ensures Shown(before.visible, disk.visible, RejectionDocument(rejection))
  {
    hide RejectedEventPublisher.OnlyPending, RejectedEventPublisher.StuckHolding, OutboxPublisher.SealedPaths,
      AnyRegression;
    StuckStaysStranded(before, disk.View(), rejection);
  }

  /** What overtaking leads to is where the languishing starts. */
  lemma DoomedIsHaunted(c: Configuration, running: Runtime, identifiers: Identifiers)
    requires Ours(running, c, running.disk, identifiers) && running.DoomedOnDisk()
    ensures Haunted(c, running, running.disk, identifiers, running.pendingRejection.value)
  {
  }

  lemma StuckIsHolding(before: Durable, after: Durable, rejection: RejectedEvent)
    requires RejectedEventPublisher.Stuck(before, after, rejection)
    ensures RejectedEventPublisher.StuckHolding(before, after, rejection)
  {
  }

  /**
   * Permanence. Once a rejection is overtaken, no sequence of polls, shutdowns, crashes and restarts commits it,
   * clears it, commits anything else, or makes anything visible but its audit record: every retry fails on the
   * checkpoint, and every start fails in recovery.
   */
  method LanguishForever(c: Configuration, schedule: seq<Action>, running: Runtime?, disk: Disk,
          identifiers: Identifiers, ghost rejection: RejectedEvent)
    requires ValidConfiguration(c) && Haunted(c, running, disk, identifiers, rejection)
    modifies disk, identifiers, Parts(running)
    ensures Stranded(disk, rejection)
    ensures disk.committed == old(disk.committed) && disk.landed == old(disk.landed)
    ensures Shown(old(disk.visible), disk.visible, RejectionDocument(rejection))
  {
    hide ValidConfiguration, Stranded, Ours, Runtime.Doomed;
    var current := running;
    for i := 0 to |schedule|
      invariant Haunted(c, current, disk, identifiers, rejection)
      invariant disk.committed == old(disk.committed) && disk.landed == old(disk.landed)
      invariant Shown(old(disk.visible), disk.visible, RejectionDocument(rejection))
      invariant fresh(Parts(current) - old(Parts(running)))
    {
      current := Languish(c, schedule[i], current, disk, identifiers, rejection);
    }
  }

  // ---------------------------------------------------------------- a batch that cannot be read back

  /**
   * Every batch sealed on the disk nests too deep to be read back; an incarnation, if there is one, holds such a batch.
   */
  ghost predicate Jammed(c: Configuration, running: Runtime?, disk: Disk, identifiers: Identifiers)
    reads running, Parts(running), disk, if running == null then {} else {running.disk}
  {
    && OutboxPublisher.Wedged(disk.files) && Alive(c, running, disk, identifiers)
    && (running != null ==> !running.Retryable())
  }

  lemma JammedIs(c: Configuration, running: Runtime?, disk: Disk, identifiers: Identifiers)
    ensures Jammed(c, running, disk, identifiers) <==>
              && OutboxPublisher.Wedged(disk.files) && Alive(c, running, disk, identifiers)
              && (running != null ==> !running.Retryable())
  {
    hide OutboxPublisher.Wedged, Alive, Runtime.Retryable;
  }

  method Endure(c: Configuration, action: Action, running: Runtime?, disk: Disk, identifiers: Identifiers)
    returns (next: Runtime?)
    requires ValidConfiguration(c) && Jammed(c, running, disk, identifiers)
    modifies disk, identifiers, Parts(running)
    ensures Jammed(c, next, disk, identifiers) && disk.View() == old(disk.View())
    ensures fresh(Parts(next) - old(Parts(running)))
  {
    hide *;
    ghost var before := disk.View();
    JammedIs(c, running, disk, identifiers);
    AliveIs(c, running, disk, identifiers);
    AliveIs(c, null, disk, identifiers);
    ViewIs(disk);
    if running != null {
      OursIs(running, c, disk, identifiers);
      PartsAre(running);
    }
    next := running;
    match action {
      case StartUp =>
        if running == null {
          var runtime := Configure(c, disk, identifiers);
          var started, left := runtime.Start(map[], None);
        }
      case Cycle(now, views) =>
        if running != null {
          var polled := running.PollOnce(now, views, map[], map[]);
          PartsAre(running);
          OursIs(running, c, disk, identifiers);
          AliveIs(c, running, disk, identifiers);
          next := if polled.Success? then running else null;
        }
      case ShutDown(now) =>
        if running != null {
          var stopped := running.Shutdown(now, map[]);
          next := null;
        }
      case Crash =>
        next := null;
    }
    ViewIs(disk);
    AliveIs(c, next, disk, identifiers);
    JammedIs(c, next, disk, identifiers);
  }

  lemma UnreadableIsWedged(collectorId: Text, log: Log, d: Durable, batch: EventBatch)
    requires Ready(collectorId, log, d, BatchDocument(batch)) && !Reparsable(batch)
             && SealedPath(batch.batchId) in d.files
    ensures OutboxPublisher.Wedged(d.files)
  {
    hide Acceptable, Next, Shaped, OneDocumentPerId, CheckpointStands, InOrder, CommittedIsVisible, VisibleIsCommitted,
      VisibleOnce, Reparsable, Ordered;
    assert IsHold(SealedPath(batch.batchId)) && HoldPath(BatchDocument(batch)) == SealedPath(batch.batchId);
    assert forall p | p in OutboxPublisher.SealedPaths(d.files) :: IsHold(p);
    assert SealedPath(batch.batchId) in OutboxPublisher.SealedPaths(d.files);
  }

  /** It starts where a retry is bound to fail, and where a start is. */
  lemma UnreadableJams(c: Configuration, running: Runtime?, disk: Disk, identifiers: Identifiers, files: Files,
          left: Option<Document>)
    requires Alive(c, running, disk, identifiers) && Kept(c, running, disk, identifiers, files, left)
    requires if running == null then !Reloadable(left) else !running.Retryable()
    ensures Jammed(c, running, disk, identifiers)
  {
    hide Runtime.Valid, Runtime.ReadersOk, Runtime.Reading, Runtime.AllTraced, LogOf, Reparsable, Ready, Sound, Issued,
      OutboxPublisher.Wedged, Runtime.Numbered, InOrder, Runtime.AllCarried, Runtime.InputsCarried, Runtime.FitsTwo;
    if running == null {
      HeldIsReady(c.collectorId, LogOf(files), disk.View(), left.value.batch);
      UnreadableIsWedged(c.collectorId, LogOf(files), disk.View(), left.value.batch);
    } else {
      UnreadableIsWedged(c.collectorId, LogOf(files), disk.View(), running.pendingBatch.value);
    }
  }

  lemma HeldIsReady(collectorId: Text, log: Log, d: Durable, batch: EventBatch)
    requires Sound(collectorId, log, d, Some(BatchDocument(batch)))
    ensures Ready(collectorId, log, d, BatchDocument(batch)) && SealedPath(batch.batchId) in d.files
  {
    hide Next, Shaped, OneDocumentPerId, CheckpointStands, InOrder, CommittedIsVisible, VisibleIsCommitted, VisibleOnce,
      Ordered;
  }

  /**
   * Once a batch that nests more than 128 containers is sealed and not yet released, no sequence of polls, shutdowns,
   * crashes and restarts changes anything on the disk: every retry and every start fails on reading it back.
   */
  method EndureForever(c: Configuration, schedule: seq<Action>, running: Runtime?, disk: Disk, identifiers: Identifiers)
    requires ValidConfiguration(c) && Jammed(c, running, disk, identifiers)
    modifies disk, identifiers, Parts(running)
    ensures OutboxPublisher.Wedged(disk.files) && disk.View() == old(disk.View())
  {
    hide ValidConfiguration, Alive, Runtime.Retryable, OutboxPublisher.Wedged;
    var current := running;
    for i := 0 to |schedule|
      invariant Jammed(c, current, disk, identifiers)
      invariant disk.View() == old(disk.View())
      invariant fresh(Parts(current) - old(Parts(running)))
    {
      current := Endure(c, schedule[i], current, disk, identifiers);
    }
  }

  // ---------------------------------------------------------------- a run in which a rejection is overtaken

  /** A file that one poll reads to its end: two records, the first of them refused by every batch. */
  ghost predicate TwoRecords(c: Configuration, files: Files, source: SourceId, span: Span) {
    && files.Keys == {source} && NamedFiles(files)
    && |files[source].content| < POLL_LIMIT && Lines.Boundary(files[source].content, |files[source].content|)
    && RefusedComesNext(c.library, files, source, 0, span)
  }

  /** Nothing stands in the way of reading the file to its end. */
  ghost predicate Plain(views: FileReader.Views, file: FileReader.Snapshot) {
    FileReader.AllSeen(views) && views.streamed.value.content == file.content
  }

  lemma StartsAlone(running: Runtime, c: Configuration, files: Files, source: SourceId,
          views: SourceId -> FileReader.Views, span: Span)
    requires running.InStep(files) && !running.inverted && running.ReadersOk() && running.FitsTwo() && running.Still()
    requires |running.readers| == 1 && running.Ledger() == [] && running.library == c.library && running.batchSize >= 3
    requires TwoRecords(c, files, source, span) && Plain(views(source), files[source])
    ensures running.Alone(files, views, span) && running.Low(files)
  {
    hide NamedFiles, LogOf, Runtime.Good, Runtime.AllTraced, Runtime.Still, Runtime.Ledger, FractionBefore1970,
      HeldByBatches, Lines.Records, FileReader.Reader.Position, FileReader.Reader.Follows, FileReader.AllSeen,
      RecordsBefore, FileReader.Reader.Valid;
    running.InStepGrows(files, files);
    var reader := running.readers[0];
    assert running.Followed(files, reader, []);
    assert reader.options.sourceId == source;
    running.FollowedBoundary(files, reader);
    NothingReadYet(files, source, reader.Position());
  }

  lemma IsSourced(c: Configuration, files: Files, source: SourceId, span: Span)
    requires c.settings == [SourceSettings(source, true, true, FileReader.Oldest)] && TwoRecords(c, files, source, span)
    ensures Sourced(c, files) && NamedFiles(files)
  {
    hide NamedFiles, RefusedComesNext;
    assert c.settings[0].enabled && c.settings[0].id in files;
  }

  lemma CorneredIs(running: Runtime, files: Files, span: Span)
    requires running.Cornered(files, span)
    ensures running.Hopeless(LogOf(files)) && running.buffered != [] && SpanOfInput(running.buffered[0]) == span
  {
    hide Runtime.Hopeless, LogOf;
  }

  /**
   * On an empty disk that works: a start, and one poll of a file that holds a record of a fractional second before 1970
   * and then an ordinary one. It queues both, and sets the first aside when no batch holds it.
   */
  method Corner(c: Configuration, disk: Disk, identifiers: Identifiers, source: SourceId, now: int,
          views: SourceId -> FileReader.Views, ghost files: Files, ghost span: Span)
    returns (running: Runtime?)
    requires ValidConfiguration(c) && c.batchSize >= 3
             && c.settings == [SourceSettings(source, true, true, FileReader.Oldest)]
    requires disk.healthy && disk.View() == Durable(map[], {}, [], {})
    requires TwoRecords(c, files, source, span) && Plain(views(source), files[source])
             && Legible(views, files, files)
    modifies disk, identifiers
    ensures running != null && fresh(Parts(running)) && Ours(running, c, disk, identifiers)
    ensures running.started && !running.stopping && running.Cornered(files, span)
  {
    hide *;
    IsSourced(c, files, source, span);
    ViewIs(disk);
    LogIsOrdered(files);
    EmptyDiskIsSound(c.collectorId, LogOf(files), disk, identifiers);
    KeptIs(c, null, disk, identifiers, files, None);
    NothingHeldIs(map[]);
    ghost var left;
    running, left := Boot(c, disk, identifiers, files, None);
    ViewIs(disk);
    KeptIs(c, running, disk, identifiers, files, left);
    AliveIs(c, running, disk, identifiers);
    OursIs(running, c, disk, identifiers);
    StartsAlone(running, c, files, source, views, span);
    running.FollowingIs(views, files, files);
    PartsAre(running);
    var queued := running.PollOnce(now, views, files, files);
    PartsAre(running);
    OursIs(running, c, disk, identifiers);
  }

  /**
   * A run that loses the order and blocks the collector. The second poll publishes the later record first, and then
   * the rejection of the first one is overtaken: its audit record is visible, but its position never commits.
   */
  method OvertakeRecord(c: Configuration, disk: Disk, identifiers: Identifiers, source: SourceId, now: int, later: int,
          first: SourceId -> FileReader.Views, second: SourceId -> FileReader.Views, ghost files: Files,
          ghost span: Span)
    returns (running: Runtime?)
    requires ValidConfiguration(c) && c.batchSize >= 3
             && c.settings == [SourceSettings(source, true, true, FileReader.Oldest)]
    requires disk.healthy && disk.View() == Durable(map[], {}, [], {})
    requires TwoRecords(c, files, source, span) && Plain(first(source), files[source])
    requires Legible(first, files, files) && Legible(second, files, files)
    modifies disk, identifiers
    ensures running != null && fresh(Parts(running)) && Alive(c, running, disk, identifiers)
    ensures running.pendingRejection.Some? && running.pendingRejection.value.source == span
    ensures RejectionDocument(running.pendingRejection.value) in disk.visible && VisibleOnce(disk.View())
    ensures Haunted(c, running, disk, identifiers, running.pendingRejection.value)
  {
    hide *;
    running := Corner(c, disk, identifiers, source, now, first, files, span);
    OursIs(running, c, disk, identifiers);
    CorneredIs(running, files, span);
    running.DoomedIs(span);
    PartsAre(running);
    var published := running.PollOnce(later, second, files, files);
    running.DoomedIs(span);
    PartsAre(running);
    OursIs(running, c, disk, identifiers);
    AliveIs(c, running, disk, identifiers);
    DoomedIsHaunted(c, running, identifiers);
  }

  /** The checkpoint is past this record of the log, no document carries it, and nothing is left to publish. */
  ghost predicate Lost(log: Log, d: Durable, span: Span) {
    var s, marks := span.source, CheckpointMarks(d.files);
    && s in log && span in log[s]
    && s in marks && OffsetOf(marks[s]).Some? && span.end < OffsetOf(marks[s]).value.1
    && NothingHeld(d.files)
    && forall x | x in d.visible :: !Carries(x, span)
  }

  lemma LostIsNotOnce(log: Log, d: Durable, span: Span)
    requires Lost(log, d, span)
    ensures !ExactlyOnceThroughout(log, d)
  {
    hide Carries;
    var i :| 0 <= i < |log[span.source]| && log[span.source][i] == span;
    assert !OnlyIn(d.visible, log[span.source][i]);
  }

  /** Once what is queued behind a cornered record has been published, a crash loses the record. */
  lemma DrainedIsLost(running: Runtime, log: Log, lane: Log, committed: seq<Span>, next: Span, queued: seq<Span>,
          rest: seq<Span>)
    requires Ordered(log) && InOrder(log, committed + [next] + queued + rest) && Mentions(queued, next.source)
    requires Sound(running.collectorId, lane, running.disk.View(), None) && running.Numbered()
    requires running.disk.committed == committed + queued
    ensures Lost(log, running.disk.View(), next)
  {
    hide Runtime.Numbered, Sound, Ordered, InOrder, Mentions, Carries, Runtime.RecordsIssued;
    running.DrainedIsBehind(log, lane, committed, next, queued, rest);
    InOrderPrefix(log, committed + [next] + queued, rest);
    NextInLog(log, committed, next, queued);
  }

  /**
   * A run that loses a record: the same start and first poll, and a crash in the second poll between the commit of the
   * later record and the linking of the first one's rejection. Until then the second poll has nothing to retry, finds
   * the rejection in front, and does no more than drain and flush. The next start finds nothing to recover.
   */
  method LoseRecord(c: Configuration, disk: Disk, identifiers: Identifiers, source: SourceId, now: int, later: int,
          views: SourceId -> FileReader.Views, ghost files: Files, ghost span: Span)
    returns (next: Runtime?)
    requires ValidConfiguration(c) && c.batchSize >= 3
             && c.settings == [SourceSettings(source, true, true, FileReader.Oldest)]
    requires disk.healthy && disk.View() == Durable(map[], {}, [], {})
    requires TwoRecords(c, files, source, span) && Plain(views(source), files[source])
             && Legible(views, files, files)
    modifies disk, identifiers
    ensures Lost(LogOf(files), disk.View(), span) && !ExactlyOnceThroughout(LogOf(files), disk.View())
    ensures Alive(c, next, disk, identifiers)
  {
    hide *;
    var running := Corner(c, disk, identifiers, source, now, views, files, span);
    OursIs(running, c, disk, identifiers);
    CorneredIs(running, files, span);
    ghost var log, lane, committed := LogOf(files), running.Lane(LogOf(files)), disk.committed;
    ghost var queued, rest := SpansOfEvents(running.queue.Contents()), running.Rest();
    running.WaitsInFront(log);
    running.HopelessLedger(log);
    PartsAre(running);
    var drained := running.DrainAndFlush(later, log, files);
    DrainedIsLost(running, log, lane, committed, span, queued, rest);
    LostIs(log, disk.View(), span);
    ViewIs(disk);
    ghost var left;
    next, left := Boot(c, disk, identifiers, files, None);
    LostIsNotOnce(log, disk.View(), span);
  }

  lemma LostIs(log: Log, d: Durable, span: Span)
    ensures Lost(log, d, span) ==> NothingHeld(d.files)
  {
    hide NothingHeld, Carries;
  }
}
