/** The committer: verified files are made durable in batches before any of them is reported as saved. */
module Commit {
  import opened Basics

  const COMMIT_MAX_FILES: nat := 256
  const COMMIT_MAX_BYTES: nat := 67_108_864

  /** A verified partial waiting for its batch. handle names the open file, folder the directory of its target. */
  datatype PendingFile = PendingFile(handle: nat, folder: nat, size: nat)

  /** Renamed is the only outcome that saves the file; NotPlaced leaves it out without an error. */
  datatype PlaceOutcome = Renamed | NotPlaced | PlaceFailed

  /** How the disk behaves during one flush. */
  datatype World = World(syncFails: set<nat>, barrierFails: bool, place: nat -> PlaceOutcome)

  /** What a flush does to the outside, in order. */
  datatype Event =
    | SyncFile(handle: nat, ok: bool)
    | Barrier(handle: nat, ok: bool)
    | Close(handle: nat)
    | Rename(handle: nat)
    | SyncDirs(folders: set<nat>)
    | FileDone(handle: nat)

  datatype Batch = Batch(files: seq<PendingFile>, world: World)

  datatype CommitError = SyncError | FinalizeError

  predicate AllDurable(b: Batch) {
    (forall i :: 0 <= i < |b.files| ==> b.files[i].handle !in b.world.syncFails) && !b.world.barrierFails
  }

  predicate Succeeds(b: Batch) {
    AllDurable(b) && forall i :: 0 <= i < |b.files| ==> b.world.place(b.files[i].handle) != PlaceFailed
  }

  function TotalSize(files: seq<PendingFile>): nat {
    if files == [] then 0 else TotalSize(files[..|files| - 1]) + files[|files| - 1].size
  }

  /** A batch of this many files or bytes is not kept waiting. */
  predicate Full(files: seq<PendingFile>) {
    |files| >= COMMIT_MAX_FILES || TotalSize(files) >= COMMIT_MAX_BYTES
  }

  function Syncs(files: seq<PendingFile>, w: World): seq<Event> {
    seq(|files|, i requires 0 <= i < |files| => SyncFile(files[i].handle, files[i].handle !in w.syncFails))
  }

  function Closes(files: seq<PendingFile>): seq<Event> {
    seq(|files|, i requires 0 <= i < |files| => Close(files[i].handle))
  }

  function Placed(files: seq<PendingFile>, w: World): seq<PendingFile> {
    if files == [] then []
    else
      var last := files[|files| - 1];
      Placed(files[..|files| - 1], w) + (if w.place(last.handle) == Renamed then [last] else [])
  }

  function Renames(files: seq<PendingFile>): seq<Event> {
    seq(|files|, i requires 0 <= i < |files| => Rename(files[i].handle))
  }

  function Dones(files: seq<PendingFile>): seq<Event> {
    seq(|files|, i requires 0 <= i < |files| => FileDone(files[i].handle))
  }

  function Folders(files: seq<PendingFile>): set<nat> {
    set i | 0 <= i < |files| :: files[i].folder
  }

  /** First every file is synced, then the drive, and every handle is closed whatever happened. */
  function Lead(b: Batch): seq<Event>
    requires b.files != []
  {
    Syncs(b.files, b.world)
    + (if forall i :: 0 <= i < |b.files| ==> b.files[i].handle !in b.world.syncFails
       then [Barrier(b.files[|b.files| - 1].handle, !b.world.barrierFails)] else [])
    + Closes(b.files)
  }

  /** Then the renames, one sync of the folders touched, and the reports. */
  function Tail(placed: seq<PendingFile>): seq<Event> {
    Renames(placed) + [SyncDirs(Folders(placed))] + Dones(placed)
  }

  /** One flush: nothing is placed or reported unless all of the batch reached the disk. */
  function BatchTrace(b: Batch): seq<Event> {
    if b.files == [] then []
    else Lead(b) + (if AllDurable(b) then Tail(Placed(b.files, b.world)) else [])
  }

  function TraceOf(history: seq<Batch>): seq<Event> {
    if history == [] then []
    else TraceOf(history[..|history| - 1]) + BatchTrace(history[|history| - 1])
  }

  function FilesOf(history: seq<Batch>): seq<PendingFile> {
    if history == [] then []
    else FilesOf(history[..|history| - 1]) + history[|history| - 1].files
  }

  lemma HistoryStep(history: seq<Batch>, b: Batch)
    ensures TraceOf(history + [b]) == TraceOf(history) + BatchTrace(b)
    ensures FilesOf(history + [b]) == FilesOf(history) + b.files
  {
    assert (history + [b])[..|history|] == history;
  }

  class Committer {
    var pending: seq<PendingFile>
    var bytes: nat
    var trace: seq<Event>           // everything done to the outside so far
    ghost var added: seq<PendingFile>  // every file ever handed over
    ghost var history: seq<Batch>      // every flush so far

    /** Every file handed over was flushed or is pending, and the trace is the flushes'. */
    ghost predicate Traced()
      reads this
    {
      added == FilesOf(history) + pending && trace == TraceOf(history)
    }

    ghost predicate Valid()
      reads this
    {
      Traced() && bytes == TotalSize(pending) && !Full(pending)
    }

    constructor ()
      ensures Valid() && added == [] && history == [] && pending == []
    {
      pending, bytes, trace, added, history := [], 0, [], [], [];
    }

    /** Takes one file and flushes once the batch is full. w is how the disk behaves if it does. */
    method Add(pf: PendingFile, w: World) returns (r: Result<(), CommitError>)
      requires Valid()
      modifies this
      ensures Valid() && added == old(added) + [pf]
      ensures var batch := old(pending) + [pf];
              if Full(batch) then
                && pending == [] && history == old(history) + [Batch(batch, w)]
                && (r.Ok? <==> Succeeds(Batch(batch, w)))
              else
                && pending == batch && history == old(history) && r.Ok?
      ensures |pending| < 256 && TotalSize(pending) < 64 * 1024 * 1024
    {
      assert (pending + [pf])[..|pending|] == pending;
      pending := pending + [pf];
      bytes := bytes + pf.size;
      added := added + [pf];
      assert added == FilesOf(history) + pending;
      if |pending| >= COMMIT_MAX_FILES || bytes >= COMMIT_MAX_BYTES {
        r := Flush(w);
      } else {
        r := Ok(());
      }
    }

    /** Makes the batch durable, places it, and reports what was placed. */
    method Flush(w: World) returns (r: Result<(), CommitError>)
      requires Traced()
      modifies this
      ensures Valid() && added == old(added) && pending == []
      ensures history == if old(pending) == [] then old(history) else old(history) + [Batch(old(pending), w)]
      ensures r.Ok? <==> old(pending) == [] || Succeeds(Batch(old(pending), w))
    {
      hide Lead, Tail, Placed, TraceOf, FilesOf;
      var batch := pending;
      pending, bytes := [], 0;
      if batch == [] {
        return Ok(());
      }
      ghost var b := Batch(batch, w);
      ghost var before := trace;
      HistoryStep(history, b);
      history := history + [b];
      var durable := SyncAndClose(batch, w);
      if !durable {
        return Err(SyncError);
      }
      var failed := PlaceAll(batch, w);
      assert before + Lead(b) + Tail(Placed(batch, w)) == before + BatchTrace(b);
      if failed {
        return Err(FinalizeError);
      }
      return Ok(());
    }

    /** Renames what can be placed, syncs the folders touched, then reports each placed file. */
    method PlaceAll(batch: seq<PendingFile>, w: World) returns (failed: bool)
      modifies this`trace
      ensures failed <==> exists i :: 0 <= i < |batch| && w.place(batch[i].handle) == PlaceFailed
      ensures trace == old(trace) + Tail(Placed(batch, w))
    {
      var done: seq<PendingFile> := [];
      failed := false;
      for i := 0 to |batch|
        invariant done == Placed(batch[..i], w) && trace == old(trace) + Renames(done)
        invariant failed <==> exists k :: 0 <= k < i && w.place(batch[k].handle) == PlaceFailed
      {
        assert batch[..i + 1][..i] == batch[..i];
        var placed := w.place(batch[i].handle);
        if placed == PlaceFailed {
          failed := true;
        }
        if placed == Renamed {
          trace := trace + [Rename(batch[i].handle)];
          assert Renames(done + [batch[i]]) == Renames(done) + [Rename(batch[i].handle)];
          done := done + [batch[i]];
        }
      }
      assert batch[..|batch|] == batch;
      trace := trace + [SyncDirs(Folders(done))];
      ghost var placedAll := trace;
      for i := 0 to |done|
        invariant trace == placedAll + Dones(done)[..i]
      {
        trace := trace + [FileDone(done[i].handle)];
      }
      assert Dones(done)[..|done|] == Dones(done);
    }

    /** Syncs every file, then the drive, and closes every handle whatever happened. */
    method SyncAndClose(batch: seq<PendingFile>, w: World) returns (durable: bool)
      requires batch != []
      modifies this`trace
      ensures durable <==> AllDurable(Batch(batch, w))
      ensures trace == old(trace) + Lead(Batch(batch, w))
    {
      durable := true;
      for i := 0 to |batch|
        invariant trace == old(trace) + Syncs(batch, w)[..i]
        invariant durable <==> forall k :: 0 <= k < i ==> batch[k].handle !in w.syncFails
      {
        trace := trace + [SyncFile(batch[i].handle, batch[i].handle !in w.syncFails)];
        if batch[i].handle in w.syncFails {
          durable := false;
        }
      }
      if durable {
        trace := trace + [Barrier(batch[|batch| - 1].handle, !w.barrierFails)];
        durable := !w.barrierFails;
      }
      ghost var flushed := trace;
      for i := 0 to |batch|
        invariant trace == flushed + Closes(batch)[..i]
      {
        trace := trace + [Close(batch[i].handle)];
      }
    }
  }

  // ---- what every history of flushes keeps ----

  ghost predicate DistinctHandles(files: seq<PendingFile>) {
    forall i, j :: 0 <= i < j < |files| ==> files[i].handle != files[j].handle
  }

  predicate Mentions(files: seq<PendingFile>, handle: nat) {
    exists i :: 0 <= i < |files| && files[i].handle == handle
  }

  function Count(trace: seq<Event>, e: Event): nat {
    if trace == [] then 0 else Count(trace[..|trace| - 1], e) + (if trace[|trace| - 1] == e then 1 else 0)
  }

  lemma {:induction false} CountConcat(a: seq<Event>, b: seq<Event>, e: Event)
    ensures Count(a + b, e) == Count(a, e) + Count(b, e)
    decreases |b|
  {
    if b == [] {
      assert a + b == a;
    } else {
      CountConcat(a, b[..|b| - 1], e);
      assert (a + b)[..|a + b| - 1] == a + b[..|b| - 1];
    }
  }

  lemma {:induction false} CountAbsent(trace: seq<Event>, e: Event)
    requires forall i :: 0 <= i < |trace| ==> trace[i] != e
    ensures Count(trace, e) == 0
  {
    if trace != [] {
      CountAbsent(trace[..|trace| - 1], e);
    }
  }

  /** An event that stands at one place at most is counted once at most. */
  lemma {:induction false} CountDistinct(trace: seq<Event>, e: Event)
    requires forall i, j :: 0 <= i < j < |trace| ==> trace[i] != e || trace[j] != e
    ensures Count(trace, e) == if e in trace then 1 else 0
  {
    if trace != [] {
      var front := trace[..|trace| - 1];
      if trace[|trace| - 1] == e {
        CountAbsent(front, e);
      } else {
        CountDistinct(front, e);
        assert e in trace <==> e in front;
      }
    }
  }

  lemma {:induction false} PlacedIs(files: seq<PendingFile>, w: World)
    ensures forall f :: f in Placed(files, w) <==> f in files && w.place(f.handle) == Renamed
    ensures DistinctHandles(files) ==> DistinctHandles(Placed(files, w))
  {
    if files != [] {
      var front := files[..|files| - 1];
      PlacedIs(front, w);
      assert forall f :: f in files <==> f in front || f == files[|files| - 1];
    }
  }

  /** A batch that did not fully reach the disk places nothing and reports nothing. */
  lemma FailedBatchPlacesNone(b: Batch, t: nat)
    requires t < |BatchTrace(b)| && !AllDurable(b)
    ensures !BatchTrace(b)[t].Rename? && !BatchTrace(b)[t].FileDone? && !BatchTrace(b)[t].SyncDirs?
  {
    LeadOnlySyncsAndCloses(b, t);
  }

  lemma LeadOnlySyncsAndCloses(b: Batch, t: nat)
    requires b.files != [] && t < |Lead(b)|
    ensures Lead(b)[t].SyncFile? || Lead(b)[t].Barrier? || Lead(b)[t].Close?
  {
  }

  /** Every file of the batch was synced, and the drive flushed, within these events. */
  ghost predicate SyncedIn(b: Batch, events: seq<Event>) {
    && (forall i :: 0 <= i < |b.files| ==> SyncFile(b.files[i].handle, true) in events)
    && b.files != []
    && Barrier(b.files[|b.files| - 1].handle, true) in events
  }

  /** The file was moved into place and its folder's sync was attempted within these events. */
  ghost predicate PlacedIn(f: PendingFile, events: seq<Event>) {
    && Rename(f.handle) in events
    && exists folders :: SyncDirs(folders) in events && f.folder in folders
  }

  lemma LeadSyncs(b: Batch)
    requires b.files != [] && AllDurable(b)
    ensures SyncedIn(b, Lead(b))
  {
    var n := |b.files|;
    forall i | 0 <= i < n
      ensures SyncFile(b.files[i].handle, true) in Lead(b)
    {
      assert Lead(b)[i] == SyncFile(b.files[i].handle, true);
    }
    assert Lead(b)[n] == Barrier(b.files[n - 1].handle, true);
  }

  lemma TailPlaces(placed: seq<PendingFile>, t: nat)
    requires t < |Tail(placed)| && Tail(placed)[t].FileDone?
    ensures 0 <= t - |placed| - 1 < |placed| && Tail(placed)[t].handle == placed[t - |placed| - 1].handle
    ensures PlacedIn(placed[t - |placed| - 1], Tail(placed)[..t])
  {
    var n, i := |placed|, t - |placed| - 1;
    assert Tail(placed)[..t][i] == Rename(placed[i].handle);
    assert Tail(placed)[..t][n] == SyncDirs(Folders(placed));
    assert placed[i].folder in Folders(placed);
  }

  lemma LaterStill(b: Batch, before: seq<Event>, events: seq<Event>, after: seq<Event>)
    ensures SyncedIn(b, events) ==> SyncedIn(b, before + events + after)
    ensures forall f <- b.files :: PlacedIn(f, events) ==> PlacedIn(f, before + events + after)
  {
    assert forall e :: e in events ==> e in before + events + after;
  }

  /** A rename or a report comes only after the whole batch is on disk; a report only after the file is in place. */
  lemma DoneIsDurable(b: Batch, t: nat)
    requires t < |BatchTrace(b)|
    ensures BatchTrace(b)[t].Rename? || BatchTrace(b)[t].FileDone? ==> SyncedIn(b, BatchTrace(b)[..t])
    ensures BatchTrace(b)[t].FileDone? ==>
              exists f <- b.files :: f.handle == BatchTrace(b)[t].handle && PlacedIn(f, BatchTrace(b)[..t])
  {
    hide Lead, Tail, SyncedIn, PlacedIn;
    var trace := BatchTrace(b);
    if trace[t].Rename? || trace[t].FileDone? {
      if t < |Lead(b)| {
        LeadOnlySyncsAndCloses(b, t);
      } else {
        var placed := Placed(b.files, b.world);
        var k := t - |Lead(b)|;
        assert trace[..t] == Lead(b) + Tail(placed)[..k];
        LeadSyncs(b);
        LaterStill(b, [], Lead(b), Tail(placed)[..k]);
        assert [] + Lead(b) + Tail(placed)[..k] == trace[..t];
        if trace[t].FileDone? {
          TailPlaces(placed, k);
          PlacedIs(b.files, b.world);
          var f := placed[k - |placed| - 1];
          assert f in b.files;
          LaterStill(b, Lead(b), Tail(placed)[..k], []);
          assert Lead(b) + Tail(placed)[..k] + [] == trace[..t];
        }
      }
    }
  }

  lemma LeadCounts(b: Batch, handle: nat)
    requires DistinctHandles(b.files) && b.files != []
    ensures Count(Lead(b), FileDone(handle)) == 0
    ensures Count(Lead(b), Close(handle)) == if Mentions(b.files, handle) then 1 else 0
  {
    CountAbsent(Lead(b), FileDone(handle));
    CountDistinct(Lead(b), Close(handle));
    if Mentions(b.files, handle) {
      var i :| 0 <= i < |b.files| && b.files[i].handle == handle;
      assert Lead(b)[|Lead(b)| - |b.files| + i] == Close(handle);
    }
  }

  lemma TailCounts(placed: seq<PendingFile>, handle: nat)
    requires DistinctHandles(placed)
    ensures Count(Tail(placed), FileDone(handle)) == if Mentions(placed, handle) then 1 else 0
    ensures Count(Tail(placed), Close(handle)) == 0
  {
    CountAbsent(Tail(placed), Close(handle));
    CountDistinct(Tail(placed), FileDone(handle));
    if Mentions(placed, handle) {
      var i :| 0 <= i < |placed| && placed[i].handle == handle;
      assert Tail(placed)[|placed| + 1 + i] == FileDone(handle);
    }
  }

  /** In one flush: a report for exactly the files placed after a full sync, one close for every file. */
  lemma BatchCounts(b: Batch, handle: nat)
    requires DistinctHandles(b.files)
    ensures Count(BatchTrace(b), FileDone(handle)) ==
            if AllDurable(b) && Mentions(b.files, handle) && b.world.place(handle) == Renamed then 1 else 0
    ensures Count(BatchTrace(b), Close(handle)) == if Mentions(b.files, handle) then 1 else 0
  {
    hide Lead, Tail;
    PlacedIs(b.files, b.world);
    var placed := Placed(b.files, b.world);
    assert Mentions(placed, handle) <==> Mentions(b.files, handle) && b.world.place(handle) == Renamed by {
      if Mentions(placed, handle) {
        var i :| 0 <= i < |placed| && placed[i].handle == handle;
        assert placed[i] in b.files;
      }
      if Mentions(b.files, handle) && b.world.place(handle) == Renamed {
        var i :| 0 <= i < |b.files| && b.files[i].handle == handle;
        assert b.files[i] in placed;
      }
    }
    if b.files == [] {
      CountAbsent([], FileDone(handle));
      CountAbsent([], Close(handle));
    } else {
      var tail := if AllDurable(b) then Tail(placed) else [];
      CountConcat(Lead(b), tail, FileDone(handle));
      CountConcat(Lead(b), tail, Close(handle));
      LeadCounts(b, handle);
      TailCounts(placed, handle);
      CountAbsent([], FileDone(handle));
      CountAbsent([], Close(handle));
    }
  }

  lemma DistinctParts(a: seq<PendingFile>, b: seq<PendingFile>, handle: nat)
    requires DistinctHandles(a + b)
    ensures DistinctHandles(a) && DistinctHandles(b)
    ensures !(Mentions(a, handle) && Mentions(b, handle))
    ensures Mentions(a + b, handle) <==> Mentions(a, handle) || Mentions(b, handle)
  {
    forall i, j | 0 <= i < j < |a|
      ensures a[i].handle != a[j].handle
    {
      assert (a + b)[i] == a[i] && (a + b)[j] == a[j];
    }
    forall i, j | 0 <= i < j < |b|
      ensures b[i].handle != b[j].handle
    {
      assert (a + b)[|a| + i] == b[i] && (a + b)[|a| + j] == b[j];
    }
    forall i, j | 0 <= i < |a| && 0 <= j < |b|
      ensures a[i].handle != b[j].handle
    {
      assert (a + b)[i] == a[i] && (a + b)[|a| + j] == b[j];
    }
    if Mentions(a, handle) {
      var i :| 0 <= i < |a| && a[i].handle == handle;
      assert (a + b)[i].handle == handle;
    }
    if Mentions(b, handle) {
      var j :| 0 <= j < |b| && b[j].handle == handle;
      assert (a + b)[|a| + j].handle == handle;
    }
  }

  /** Over every run: a file is reported at most once, and every handle that reached a flush is closed exactly once. */
  lemma {:induction false} ReportedOnceClosedOnce(history: seq<Batch>, handle: nat)
    requires DistinctHandles(FilesOf(history))
    ensures Count(TraceOf(history), FileDone(handle)) <= 1
    ensures Count(TraceOf(history), FileDone(handle)) == 1 ==> Mentions(FilesOf(history), handle)
    ensures Count(TraceOf(history), Close(handle)) == if Mentions(FilesOf(history), handle) then 1 else 0
  {
    if history != [] {
      hide BatchTrace, Count, DistinctHandles, Mentions;
      var front, last := history[..|history| - 1], history[|history| - 1];
      DistinctParts(FilesOf(front), last.files, handle);
      ReportedOnceClosedOnce(front, handle);
      BatchCounts(last, handle);
      CountConcat(TraceOf(front), BatchTrace(last), FileDone(handle));
      CountConcat(TraceOf(front), BatchTrace(last), Close(handle));
    } else {
      assert Count(TraceOf(history), Close(handle)) == 0;
    }
  }

  /** Over every run: a report is preceded by the sync of its whole batch, its own rename and its folder's sync. */
  lemma {:induction false} ReportedMeansDurable(history: seq<Batch>, t: nat)
    requires t < |TraceOf(history)| && TraceOf(history)[t].FileDone?
    ensures exists b <- history, f <- b.files ::
              f.handle == TraceOf(history)[t].handle
              && SyncedIn(b, TraceOf(history)[..t]) && PlacedIn(f, TraceOf(history)[..t])
  {
    hide SyncedIn, PlacedIn, BatchTrace;
    var front, last := history[..|history| - 1], history[|history| - 1];
    var n := |TraceOf(front)|;
    if t < n {
      ReportedMeansDurable(front, t);
      assert TraceOf(history)[..t] == TraceOf(front)[..t];
      var b, f :| b in front && f in b.files && f.handle == TraceOf(front)[t].handle
                  && SyncedIn(b, TraceOf(front)[..t]) && PlacedIn(f, TraceOf(front)[..t]);
      assert b in history;
    } else {
      DoneIsDurable(last, t - n);
      var f :| f in last.files && f.handle == BatchTrace(last)[t - n].handle && PlacedIn(f, BatchTrace(last)[..t - n]);
      assert TraceOf(history)[..t] == TraceOf(front) + BatchTrace(last)[..t - n];
      assert last in history;
      LaterStill(last, TraceOf(front), BatchTrace(last)[..t - n], []);
      assert TraceOf(front) + BatchTrace(last)[..t - n] + [] == TraceOf(history)[..t];
    }
  }

  // ---- what a flush reports ----

  /** The file is reported as saved in this batch. */
  predicate Saved(b: Batch, f: PendingFile) {
    FileDone(f.handle) in BatchTrace(b)
  }

  /** A durable batch reports exactly the files it renamed into place. */
  lemma DurableReports(b: Batch, f: PendingFile)
    requires f in b.files
    ensures Saved(b, f) <==> AllDurable(b) && b.world.place(f.handle) == Renamed
  {
    hide Lead, AllDurable;
    var placed := Placed(b.files, b.world);
    PlacedIs(b.files, b.world);
    if Saved(b, f) {
      var t :| 0 <= t < |BatchTrace(b)| && BatchTrace(b)[t] == FileDone(f.handle);
      if !AllDurable(b) {
        FailedBatchPlacesNone(b, t);
      } else if t < |Lead(b)| {
        LeadOnlySyncsAndCloses(b, t);
      } else {
        TailPlaces(placed, t - |Lead(b)|);
      }
    }
    if AllDurable(b) && b.world.place(f.handle) == Renamed {
      var i :| 0 <= i < |placed| && placed[i] == f;
      assert Dones(placed)[i] == FileDone(f.handle);
      assert Tail(placed)[|placed| + 1 + i] == FileDone(f.handle);
      assert BatchTrace(b)[|Lead(b)| + |placed| + 1 + i] == FileDone(f.handle);
    }
  }

  /** A flush succeeds exactly when its batch is durable and every file is reported as saved, or left out because something was in its way. */
  lemma SucceedsExactly(b: Batch)
    ensures Succeeds(b) <==>
              AllDurable(b) && forall f <- b.files :: Saved(b, f) || b.world.place(f.handle) == NotPlaced
  {
    hide AllDurable, Saved;
    forall f | f in b.files
      ensures Saved(b, f) <==> AllDurable(b) && b.world.place(f.handle) == Renamed
    {
      DurableReports(b, f);
    }
    assert forall i :: 0 <= i < |b.files| ==> b.files[i] in b.files;
  }

  /** What reaches the disk: every file of the batch, and then the drive. */
  lemma DurableExactly(b: Batch)
    requires b.files != []
    ensures AllDurable(b) <==>
              && (forall f <- b.files :: SyncFile(f.handle, true) in BatchTrace(b))
              && Barrier(b.files[|b.files| - 1].handle, true) in BatchTrace(b)
  {
    hide Tail, Placed;
    var syncs, closes := Syncs(b.files, b.world), Closes(b.files);
    forall f | f in b.files
      ensures SyncFile(f.handle, true) in BatchTrace(b) <==> f.handle !in b.world.syncFails
    {
      SyncedExactly(b, f);
    }
    BarrierExactly(b);
    assert forall i :: 0 <= i < |b.files| ==> b.files[i] in b.files;
  }

  lemma TailHasNoSync(placed: seq<PendingFile>, e: Event)
    requires e.SyncFile? || e.Barrier?
    ensures e !in Tail(placed)
  {
  }

  lemma SyncedExactly(b: Batch, f: PendingFile)
    requires f in b.files
    ensures SyncFile(f.handle, true) in BatchTrace(b) <==> f.handle !in b.world.syncFails
  {
    hide AllDurable, Tail, Placed;
    TailHasNoSync(Placed(b.files, b.world), SyncFile(f.handle, true));
    var i :| 0 <= i < |b.files| && b.files[i] == f;
    assert Syncs(b.files, b.world)[i] == SyncFile(f.handle, f.handle !in b.world.syncFails);
    assert BatchTrace(b)[i] == Syncs(b.files, b.world)[i];
  }

  lemma BarrierExactly(b: Batch)
    requires b.files != []
    ensures Barrier(b.files[|b.files| - 1].handle, true) in BatchTrace(b) <==>
              (forall i :: 0 <= i < |b.files| ==> b.files[i].handle !in b.world.syncFails) && !b.world.barrierFails
  {
    hide AllDurable, Tail, Placed;
    var h := b.files[|b.files| - 1].handle;
    TailHasNoSync(Placed(b.files, b.world), Barrier(h, true));
    if forall i :: 0 <= i < |b.files| ==> b.files[i].handle !in b.world.syncFails {
      assert Lead(b)[|b.files|] == Barrier(h, !b.world.barrierFails);
      assert BatchTrace(b)[|b.files|] == Lead(b)[|b.files|];
    }
  }
}
