/** A whole transfer through the packer, the frames and the receiver; and transfers cut short and tried again. */
module Transfer {
  import opened Basics
  import opened Wire
  import opened FileHash
  import opened Send
  import opened Receive
  import opened Verdicts
  import opened Frames
  import opened Delivery

  /** The first k chunks of a stream are a prefix of it, proper when chunks follow. */
  lemma {:induction false} StreamPrefix(chunks: seq<Chunk>, k: nat)
    requires ValidChunks(chunks) && k <= |chunks|
    ensures ValidChunks(chunks[..k])
    ensures StreamAtoms(chunks[..k]) <= StreamAtoms(chunks)
    ensures k < |chunks| ==> |StreamAtoms(chunks[..k])| < |StreamAtoms(chunks)|
    decreases |chunks|
  {
    hide ValidChunks, ValidChunk, StreamAtoms, ChunkAtoms;
    PrefixValid(chunks, k);
    if k == |chunks| {
      assert chunks[..k] == chunks;
    } else {
      var front := chunks[..|chunks| - 1];
      LastChunk(chunks);
      StreamPrefix(front, k);
      assert front[..k] == chunks[..k];
    }
  }

  /** Gathers the receiver's verdicts; later ones for the same index win. */
  method CollectDecisions(plans: seq<FilePlan>, approve: bool) returns (decisions: map<nat, Decision>)
    requires PlansValid(plans)
    ensures decisions == Decisions(plans, approve)
  {
    decisions := map[];
    for i := 0 to |plans|
      invariant decisions == map k: nat | k < i :: PlanToDecision(plans[k], approve)
    {
      var d := PlanToDecision(plans[i], approve);
      decisions := decisions[d.index := d];
    }
  }

  /** Reads frames back into chunks. */
  method ReadChunks(frames: seq<Frame>, ghost sent: seq<Chunk>) returns (chunks: seq<Chunk>)
    requires |frames| == |sent|
    requires forall i :: 0 <= i < |sent| ==>
               frames[i].segs == sent[i].segs && DecodePayload(frames[i]) == Ok(sent[i].payload)
    ensures chunks == sent
  {
    hide DecodePayload;
    chunks := [];
    for i := 0 to |frames|
      invariant chunks == sent[..i]
    {
      var plain := DecodePayload(frames[i]);
      assert plain.Ok?;
      chunks := chunks + [Chunk(frames[i].segs, plain.value)];
    }
  }

  /**
   * Every transfer between honest peers over a stream that holds: no refusal,
   * every readable awaited file committed with the source's bytes, exactly the
   * unreadable ones skipped, and the last chunk is the one that ends the wait.
   */
  method Transfer(sources: seq<Source>, plans: seq<FilePlan>, approve: bool, zsize: seq<byte> -> nat)
    returns (r: Result<(), ReceiveError>, receiver: Receiver, chunks: seq<Chunk>, ghost taken: nat)
    requires Matching(sources, plans)
    ensures r.Ok? && ValidChunks(chunks)
    ensures fresh(receiver) && receiver.Valid() && receiver.cur == null && receiver.expected == 0
    ensures Delivered(sources, plans, approve, receiver.committed, receiver.skipped)
    ensures LandsExactly(sources, plans, approve, receiver.committed, receiver.skipped)
    ensures taken == |chunks|
  {
    hide Run, Script, Readable, Awaited, StreamAtoms, ValidChunk, LandsExactly, Lands;
    var decisions := CollectDecisions(plans, approve);
    assert forall i :: 0 <= i < |sources| ==> sources[i].entry.index == i by {
      assert forall i :: 0 <= i < |sources| ==> sources[i].entry == plans[i].entry;
    }
    var sent := SendFiles(sources, decisions);
    var frames := WriteLoop(sent, zsize);
    chunks := ReadChunks(frames, sent);
    receiver := new Receiver(plans, approve);
    ghost var start := receiver.State();
    r, taken := receiver.ReceiveData(chunks);
    HonestDelivery(sources, plans, approve);
    ghost var atoms := Script(sources, decisions);
    forall k: nat | k <= |chunks|
      ensures Run(plans, approve, start, StreamAtoms(chunks[..k])).Some?
      ensures k < |chunks| ==> Run(plans, approve, start, StreamAtoms(chunks[..k])).value.expected > 0
    {
      StreamPrefix(chunks, k);
      assert chunks[..|chunks|] == chunks;
      var m := |StreamAtoms(chunks[..k])|;
      assert atoms[..m] == StreamAtoms(chunks[..k]);
      if m < |atoms| {
        ExpectsUntilTheEnd(sources, plans, approve, m);
      } else {
        assert atoms[..m] == atoms;
      }
    }
    assert chunks[..|chunks|] == chunks;
    DeliveredLandsExactly(sources, plans, approve, receiver.committed, receiver.skipped);
  }

  // ---- interrupted attempts ----

  /** What a source file truly holds, and an attempt's reading of it, which may stop short or run on. */
  ghost predicate ReadsTruly(src: Source, truth: seq<byte>) {
    && |truth| == src.entry.size
    && (src.content <= truth || truth <= src.content)
  }

  /** One attempt: the sources as they read this time, where the stream was cut, and how much of the open file the disk kept. */
  datatype Attempt = Attempt(sources: seq<Source>, cut: nat, kept: nat)

  /** What lies on the receiver's disk between attempts. */
  datatype Disk = Disk(partials: seq<seq<byte>>, saved: map<nat, seq<byte>>)

  /** Saved files are identical and skipped; every other file is new, or resumed from its partial. */
  function PlansFor(entries: seq<Entry>, disk: Disk): (plans: seq<FilePlan>)
    requires |entries| == |disk.partials|
    ensures |plans| == |entries|
    ensures forall i :: 0 <= i < |entries| ==> plans[i].entry == entries[i]
  {
    seq(|entries|, i requires 0 <= i < |entries| =>
      if i in disk.saved then FilePlan(entries[i], Identical, 0, [], [], false)
      else if entries[i].isFile then ResumeCandidate(entries[i], disk.partials[i])
      else FilePlan(entries[i], New, 0, [], [], false))
  }

  ghost predicate EntriesValid(entries: seq<Entry>) {
    forall i :: 0 <= i < |entries| ==> entries[i].index == i
  }

  ghost predicate AttemptValid(entries: seq<Entry>, truth: seq<seq<byte>>, a: Attempt) {
    && EntriesValid(entries)
    && |a.sources| == |entries| == |truth|
    && forall i :: 0 <= i < |entries| ==> a.sources[i].entry == entries[i] && ReadsTruly(a.sources[i], truth[i])
  }

  function AttemptScript(entries: seq<Entry>, disk: Disk, a: Attempt): seq<Atom>
    requires |entries| == |disk.partials|
  {
    Script(a.sources, Decisions(PlansFor(entries, disk), false))
  }

  /** What arrives before the cut. */
  function AttemptSaid(entries: seq<Entry>, disk: Disk, a: Attempt): seq<Atom>
    requires |entries| == |disk.partials|
  {
    var atoms := AttemptScript(entries, disk, a);
    atoms[..Min(a.cut, |atoms|)]
  }

  function AttemptState(entries: seq<Entry>, disk: Disk, a: Attempt): Option<RState>
    requires |entries| == |disk.partials| && PlansValid(PlansFor(entries, disk))
  {
    Run(PlansFor(entries, disk), false, Start(PlansFor(entries, disk), false), AttemptSaid(entries, disk, a))
  }

  /** Something was said that opens the file. */
  predicate Opens(said: seq<Atom>, index: nat) {
    exists k :: 0 <= k < |said| && said[k].index == index && (said[k].Data? || said[k].Restart?)
  }

  /**
   * The disk after a cut: committed files saved, the partial of a file skipped
   * while it was open removed, the open file kept as far as it got to disk, and
   * every other partial left as it was.
   */
  function AfterCut(disk: Disk, said: seq<Atom>, st: RState, kept: nat): Disk {
    Disk(seq(|disk.partials|, i requires 0 <= i < |disk.partials| =>
           if i in st.committed || (i in st.skipped && Opens(said, i)) then []
           else if st.cur.Some? && st.cur.value.index == i
           then st.cur.value.received[..Min(kept, |st.cur.value.received|)]
           else disk.partials[i]),
         disk.saved + st.committed)
  }

  function AfterAttempts(entries: seq<Entry>, disk: Disk, attempts: seq<Attempt>): Disk
    requires |entries| == |disk.partials|
    ensures |AfterAttempts(entries, disk, attempts).partials| == |entries|
    decreases |attempts|
  {
    if attempts == [] then disk
    else
      var before := AfterAttempts(entries, disk, attempts[..|attempts| - 1]);
      var last := attempts[|attempts| - 1];
      if !PlansValid(PlansFor(entries, before)) then before
      else
        match AttemptState(entries, before, last)
        case None => before
        case Some(st) => AfterCut(before, AttemptSaid(entries, before, last), st, last.kept)
  }

  /** Every partial is a true prefix of its source, and every saved file is the source. */
  ghost predicate TrueDisk(entries: seq<Entry>, truth: seq<seq<byte>>, disk: Disk) {
    && |entries| == |truth| == |disk.partials|
    && (forall i :: 0 <= i < |entries| ==> disk.partials[i] <= truth[i])
    && (forall i: nat :: i in disk.saved ==> i < |entries| && disk.saved[i] == truth[i])
  }

  lemma PlansForValid(entries: seq<Entry>, disk: Disk)
    requires EntriesValid(entries) && |entries| == |disk.partials|
    ensures PlansValid(PlansFor(entries, disk))
  {
    var plans := PlansFor(entries, disk);
    forall i | 0 <= i < |plans|
      ensures plans[i].entry.index == i && PlanValid(plans[i])
    {
      if i !in disk.saved && entries[i].isFile {
        ResumeCandidateValid(entries[i], disk.partials[i]);
      }
    }
  }

  /** A true prefix is never refused: the sender either cannot read its own prefix or resumes from it. */
  lemma NeverRestarted(entries: seq<Entry>, truth: seq<seq<byte>>, disk: Disk, a: Attempt, i: nat)
    requires AttemptValid(entries, truth, a) && TrueDisk(entries, truth, disk)
    requires PlansValid(PlansFor(entries, disk))
    requires i < |entries| && Awaited(PlansFor(entries, disk), false, i)
    ensures var d := DecisionOf(PlansFor(entries, disk), false, i);
            BodyOf(a.sources[i], d).Some? ==> !BodyOf(a.sources[i], d).value.restart
  {
    var plans, src := PlansFor(entries, disk), a.sources[i];
    var d := DecisionOf(plans, false, i);
    if PrefixHashed(src, d) && d.resumeOffset <= |src.content| {
      var offset := d.resumeOffset;
      assert plans[i] == ResumeCandidate(entries[i], disk.partials[i]);
      assert disk.partials[i][..offset] == truth[i][..offset] == src.content[..offset];
    }
  }

  /** A prefix of one file's script: nothing yet, or the source's first bytes, or the whole. */
  lemma RunFileCut(plans: seq<FilePlan>, st: RState, src: Source, c: nat)
    requires Ready(plans, false, st, src)
    requires c <= |FileScript(src, DecisionOf(plans, false, src.entry.index))|
    requires var body := BodyOf(src, DecisionOf(plans, false, src.entry.index));
             body.Some? ==> !body.value.restart
    ensures var d := DecisionOf(plans, false, src.entry.index);
            var mid := Run(plans, false, st, FileScript(src, d)[..c]);
            && mid.Some?
            && (|| mid.value == st
                || mid.value == Settled(st, src, d)
                || exists end: nat :: end <= src.entry.size && end <= |src.content| &&
                     mid.value == st.(cur := Some(OpenFile(src.entry.index, src.content[..end]))))
  {
    hide Run, Settled;
    var i := src.entry.index;
    var d := DecisionOf(plans, false, i);
    var script := FileScript(src, d);
    if c == |script| {
      assert script[..c] == script;
      RunFile(plans, false, st, src);
    } else if c == 0 {
      RunNothing(plans, false, st);
    } else {
      BodyAgrees(plans, false, st, src);
      var body := BodyOf(src, d).value;
      var end := ReadUpTo(src, body.start);
      assert script[..c] == BodySoFar(src, body.start, body.start + c, false) by {
        assert src.content[body.start..end][..c] == src.content[body.start..body.start + c];
      }
      RunBodySoFar(plans, false, st, src, body, body.start + c);
    }
  }

  /** Everything committed is the source, and the open file is a true prefix of it. */
  ghost predicate TrueState(truth: seq<seq<byte>>, st: RState) {
    && (forall i: nat :: i in st.committed ==> i < |truth| && st.committed[i] == truth[i])
    && (st.cur.Some? ==> st.cur.value.index < |truth| && st.cur.value.received <= truth[st.cur.value.index])
  }

  lemma AfterFilesTrue(entries: seq<Entry>, truth: seq<seq<byte>>, disk: Disk, a: Attempt, k: nat)
    requires AttemptValid(entries, truth, a) && |disk.partials| == |entries|
    requires PlansValid(PlansFor(entries, disk)) && k <= |entries|
    ensures TrueState(truth, AfterFiles(a.sources, PlansFor(entries, disk), false, k))
  {
    var plans := PlansFor(entries, disk);
    AfterFilesIs(a.sources, plans, false, k);
    var st := AfterFiles(a.sources, plans, false, k);
    forall i: nat | i in st.committed
      ensures i < |truth| && st.committed[i] == truth[i]
    {
      assert ReadsTruly(a.sources[i], truth[i]);
    }
  }

  lemma {:induction false} RunFilesCut(entries: seq<Entry>, truth: seq<seq<byte>>, disk: Disk, a: Attempt, k: nat, c: nat)
    requires AttemptValid(entries, truth, a) && TrueDisk(entries, truth, disk)
    requires PlansValid(PlansFor(entries, disk)) && k <= |entries|
    requires c <= |Script(a.sources[..k], Decisions(PlansFor(entries, disk), false))|
    ensures var plans := PlansFor(entries, disk);
            var mid := Run(plans, false, Start(plans, false), Script(a.sources[..k], Decisions(plans, false))[..c]);
            mid.Some? && TrueState(truth, mid.value)
  {
    hide Run, FileScript, Settled, Readable, PlansFor, ReadsTruly, TrueState, PlanToDecision, AfterFiles, PlanValid, Start, Script;
    var plans := PlansFor(entries, disk);
    var decisions, start := Decisions(plans, false), Start(plans, false);
    var script := Script(a.sources[..k], decisions);
    ScriptLast(a.sources, decisions, k);
    if c == |script| {
      AfterFilesTrue(entries, truth, disk, a, k);
      RunFiles(a.sources, plans, false, k);
      assert script[..c] == script;
    } else {
      var before := Script(a.sources[..k - 1], decisions);
      if c <= |before| {
        RunFilesCut(entries, truth, disk, a, k - 1, c);
        assert script[..c] == before[..c];
      } else {
        var src := a.sources[k - 1];
        var file := FileScript(src, DecisionOf(plans, false, k - 1));
        assert script == before + file && Awaited(plans, false, k - 1);
        assert script[..c] == before + file[..c - |before|];
        RunConcat(plans, false, start, before, file[..c - |before|]);
        RunFiles(a.sources, plans, false, k - 1);
        FileCutTrue(entries, truth, disk, a, k, c - |before|);
      }
    }
  }

  lemma ScriptLast(sources: seq<Source>, decisions: map<nat, Decision>, k: nat)
    requires k <= |sources|
    ensures if k == 0 then Script(sources[..k], decisions) == []
            else Script(sources[..k], decisions) ==
                 Script(sources[..k - 1], decisions)
                 + (if Carries(sources[k - 1], decisions) then FileScript(sources[k - 1], decisions[sources[k - 1].entry.index]) else [])
  {
    if k > 0 {
      assert sources[..k][..k - 1] == sources[..k - 1];
    }
  }

  lemma AfterFilesNext(sources: seq<Source>, plans: seq<FilePlan>, k: nat)
    requires 0 < k <= |sources| == |plans| && Awaited(plans, false, k - 1)
    ensures AfterFiles(sources, plans, false, k) ==
            Settled(AfterFiles(sources, plans, false, k - 1), sources[k - 1], DecisionOf(plans, false, k - 1))
  {
  }

  /** A cut within file k - 1 leaves a true state. */
  lemma FileCutTrue(entries: seq<Entry>, truth: seq<seq<byte>>, disk: Disk, a: Attempt, k: nat, c: nat)
    requires AttemptValid(entries, truth, a) && TrueDisk(entries, truth, disk)
    requires PlansValid(PlansFor(entries, disk)) && 0 < k <= |entries|
    requires Awaited(PlansFor(entries, disk), false, k - 1)
    requires c <= |FileScript(a.sources[k - 1], DecisionOf(PlansFor(entries, disk), false, k - 1))|
    ensures var plans, src := PlansFor(entries, disk), a.sources[k - 1];
            var st := AfterFiles(a.sources, plans, false, k - 1);
            var mid := Run(plans, false, st, FileScript(src, DecisionOf(plans, false, k - 1))[..c]);
            mid.Some? && TrueState(truth, mid.value)
  {
    hide Run, FileScript, BodyOf, PlansFor, Readable, Awaited, PlanToDecision, AfterFiles;
    var plans, src := PlansFor(entries, disk), a.sources[k - 1];
    var st := AfterFiles(a.sources, plans, false, k - 1);
    AfterFilesIs(a.sources, plans, false, k - 1);
    AfterFilesTrue(entries, truth, disk, a, k - 1);
    AfterFilesTrue(entries, truth, disk, a, k);
    assert AfterFiles(a.sources, plans, false, k) == Settled(st, src, DecisionOf(plans, false, k - 1)) by {
      AfterFilesNext(a.sources, plans, k);
    }
    NeverRestarted(entries, truth, disk, a, k - 1);
    assert ReadsTruly(src, truth[k - 1]) && src.entry.index == k - 1;
    RunFileCut(plans, st, src, c);
  }

  /** One attempt, cut anywhere, keeps the disk true. */
  lemma AttemptKeepsDiskTrue(entries: seq<Entry>, truth: seq<seq<byte>>, disk: Disk, a: Attempt)
    requires AttemptValid(entries, truth, a) && TrueDisk(entries, truth, disk)
    ensures PlansValid(PlansFor(entries, disk))
    ensures var st := AttemptState(entries, disk, a);
            st.Some? && TrueDisk(entries, truth, AfterCut(disk, AttemptSaid(entries, disk, a), st.value, a.kept))
  {
    hide Run, Script, PlansFor, ReadsTruly, PlanValid, Opens;
    PlansForValid(entries, disk);
    var plans := PlansFor(entries, disk);
    var atoms := AttemptScript(entries, disk, a);
    assert a.sources[..|entries|] == a.sources;
    RunFilesCut(entries, truth, disk, a, |entries|, Min(a.cut, |atoms|));
  }

  /** No attempt on a true disk makes the sender restart a file. */
  lemma {:induction false} NoRestartSaid(entries: seq<Entry>, truth: seq<seq<byte>>, disk: Disk, a: Attempt, k: nat)
    requires AttemptValid(entries, truth, a) && TrueDisk(entries, truth, disk) && k <= |entries|
    ensures forall m :: 0 <= m < |Script(a.sources[..k], Decisions(PlansFor(entries, disk), false))| ==>
              !Script(a.sources[..k], Decisions(PlansFor(entries, disk), false))[m].Restart?
  {
    hide PlansFor, ReadsTruly;
    PlansForValid(entries, disk);
    var plans := PlansFor(entries, disk);
    if k > 0 {
      NoRestartSaid(entries, truth, disk, a, k - 1);
      assert a.sources[..k][..k - 1] == a.sources[..k - 1];
      var src := a.sources[k - 1];
      assert src.entry.index == k - 1;
      if Carries(src, Decisions(plans, false)) {
        NeverRestarted(entries, truth, disk, a, k - 1);
        NoRestartInFile(src, DecisionOf(plans, false, k - 1));
      }
    }
  }

  lemma NoRestartInFile(src: Source, d: Decision)
    requires BodyOf(src, d).Some? ==> !BodyOf(src, d).value.restart
    ensures forall m :: 0 <= m < |FileScript(src, d)| ==> !FileScript(src, d)[m].Restart?
  {
  }

  /**
   * Over any number of attempts, each cut anywhere and each losing any tail of
   * the open file, what is saved is the source, what is kept is a prefix of
   * it, and the next attempt's resume is never refused.
   */
  lemma {:induction false} ResumeIsTransparent(entries: seq<Entry>, truth: seq<seq<byte>>, disk: Disk,
                                               attempts: seq<Attempt>, next: Attempt)
    requires TrueDisk(entries, truth, disk) && AttemptValid(entries, truth, next)
    requires forall k :: 0 <= k < |attempts| ==> AttemptValid(entries, truth, attempts[k])
    ensures TrueDisk(entries, truth, AfterAttempts(entries, disk, attempts))
    ensures forall m :: 0 <= m < |AttemptScript(entries, AfterAttempts(entries, disk, attempts), next)| ==>
              !AttemptScript(entries, AfterAttempts(entries, disk, attempts), next)[m].Restart?
    decreases |attempts|
  {
    hide AttemptState, PlansFor, AfterCut, Script;
    if attempts != [] {
      var last := attempts[|attempts| - 1];
      ResumeIsTransparent(entries, truth, disk, attempts[..|attempts| - 1], last);
      AttemptKeepsDiskTrue(entries, truth, AfterAttempts(entries, disk, attempts[..|attempts| - 1]), last);
    }
    assert next.sources[..|entries|] == next.sources;
    NoRestartSaid(entries, truth, AfterAttempts(entries, disk, attempts), next, |entries|);
  }

  // ---- and resume saves what was received ----

  /** A readable source is read from the partial's last whole block on, and nothing before it is sent. */
  lemma ResumeSends(entries: seq<Entry>, truth: seq<seq<byte>>, disk: Disk, a: Attempt, i: nat)
    requires AttemptValid(entries, truth, a) && TrueDisk(entries, truth, disk) && i < |entries|
    requires HasBytes(entries[i]) && i !in disk.saved
    requires a.sources[i].opens && a.sources[i].prefixOpens && a.sources[i].seeks && entries[i].size <= |a.sources[i].content|
    ensures PlansValid(PlansFor(entries, disk))
    ensures var d, offset := DecisionOf(PlansFor(entries, disk), false, i), ResumeOffset(entries[i].size, |disk.partials[i]|);
            && offset <= |truth[i]|
            && FileScript(a.sources[i], d) ==
               DataAtoms(i, truth[i][offset..]) + [Eof(i, FileRoot(truth[i]), a.sources[i].changed)]
  {
    hide FileRoot, BlockHashes, DataAtoms;
    PlansForValid(entries, disk);
    var plans, src := PlansFor(entries, disk), a.sources[i];
    var offset := ResumeOffset(entries[i].size, |disk.partials[i]|);
    assert plans[i] == ResumeCandidate(entries[i], disk.partials[i]);
    WholeSource(src, truth[i]);
    if offset > 0 {
      assert disk.partials[i][..offset] == truth[i][..offset] == src.content[..offset];
      PrefixRootIs(plans[i]);
    }
    assert src.content[offset..src.entry.size] == truth[i][offset..];
    assert [] + DataAtoms(i, truth[i][offset..]) == DataAtoms(i, truth[i][offset..]);
  }

  lemma WholeSource(src: Source, truth: seq<byte>)
    requires ReadsTruly(src, truth) && src.entry.size <= |src.content|
    ensures src.content[..src.entry.size] == truth
  {
  }

  /**
   * A file cut off in mid-stream whose bytes all reached the disk: the next
   * attempt sends what is missing and at most one block of what was received.
   */
  lemma OneBlockAgain(entries: seq<Entry>, truth: seq<seq<byte>>, disk: Disk, a: Attempt, next: Attempt, i: nat)
    requires AttemptValid(entries, truth, a) && AttemptValid(entries, truth, next) && TrueDisk(entries, truth, disk)
    requires PlansValid(PlansFor(entries, disk)) && AttemptState(entries, disk, a).Some? && i < |entries|
    requires var st := AttemptState(entries, disk, a).value;
             st.cur.Some? && st.cur.value.index == i && |st.cur.value.received| <= a.kept && i !in st.committed && i !in st.skipped
    requires HasBytes(entries[i]) && i !in disk.saved
    requires next.sources[i].opens && next.sources[i].prefixOpens && next.sources[i].seeks && entries[i].size <= |next.sources[i].content|
    ensures var st := AttemptState(entries, disk, a).value;
            var after := AfterCut(disk, AttemptSaid(entries, disk, a), st, a.kept);
            && |after.partials| == |entries| && PlansValid(PlansFor(entries, after))
            && exists offset: nat :: offset <= |truth[i]| && |st.cur.value.received| <= offset + HASH_BLOCK_SIZE
                 && FileScript(next.sources[i], DecisionOf(PlansFor(entries, after), false, i)) ==
                    DataAtoms(i, truth[i][offset..]) + [Eof(i, FileRoot(truth[i]), next.sources[i].changed)]
  {
    hide AttemptState, AttemptSaid, PlansFor, FileScript, FileRoot, DataAtoms, Opens, ReadsTruly;
    AttemptKeepsDiskTrue(entries, truth, disk, a);
    var st := AttemptState(entries, disk, a).value;
    var after := AfterCut(disk, AttemptSaid(entries, disk, a), st, a.kept);
    assert after.partials[i] == st.cur.value.received;
    ResumeSends(entries, truth, after, next, i);
    assert |after.partials[i]| <= entries[i].size by {
      assert after.partials[i] <= truth[i];
      SizeIsTruth(next.sources[i], truth[i]);
    }
  }

  lemma SizeIsTruth(src: Source, truth: seq<byte>)
    requires ReadsTruly(src, truth)
    ensures |truth| == src.entry.size
  {
  }

  /** What is saved is not sent again. */
  lemma SavedIsNotSent(entries: seq<Entry>, disk: Disk, i: nat)
    requires EntriesValid(entries) && |entries| == |disk.partials| && i < |entries| && i in disk.saved
    ensures PlansValid(PlansFor(entries, disk)) && !Lands(PlansFor(entries, disk), false, i)
  {
    PlansForValid(entries, disk);
  }
}
