/** Sender and receiver together: what is committed is what the source held. */
module Delivery {
  import opened Basics
  import opened Wire
  import opened FileHash
  import opened Send
  import opened Receive
  import opened Verdicts

  /** The receiver planned exactly the listing the sender sent. */
  predicate Matching(sources: seq<Source>, plans: seq<FilePlan>) {
    && |sources| == |plans|
    && PlansValid(plans)
    && forall i :: 0 <= i < |sources| ==> sources[i].entry == plans[i].entry
  }

  function Decisions(plans: seq<FilePlan>, approve: bool): map<nat, Decision> {
    map i: nat | i < |plans| :: PlanToDecision(plans[i], approve)
  }

  function DecisionOf(plans: seq<FilePlan>, approve: bool, i: nat): Decision
    requires i < |plans|
  {
    PlanToDecision(plans[i], approve)
  }

  /** Every resume offset the receiver asks for passes the sender's guard. */
  lemma ResumePassesGuard(src: Source, p: FilePlan, approve: bool)
    requires PlanValid(p) && src.entry == p.entry
    ensures PlanToDecision(p, approve).action == ResumeIt <==> p.disp == Resume && !p.blockedAncestor
    ensures PrefixHashed(src, PlanToDecision(p, approve)) <==> p.disp == Resume && !p.blockedAncestor
  {
  }

  /** The plan a resume candidate gets is valid, and its offset is the largest whole-block one below both sizes. */
  lemma ResumeCandidateValid(entry: Entry, partial: seq<byte>)
    requires entry.isFile
    ensures var p := ResumeCandidate(entry, partial);
            && PlanValid(p) && p.entry == entry
            && (p.disp == Resume <==> |partial| >= HASH_BLOCK_SIZE && entry.size > HASH_BLOCK_SIZE)
            && (p.disp == Resume ==> forall k: nat ::
                  k * HASH_BLOCK_SIZE < entry.size && k * HASH_BLOCK_SIZE <= |partial| ==>
                  k * HASH_BLOCK_SIZE <= p.resumeOffset)
  {
  }

  // ---- one file ----

  /** The receiver's state once a file has ended or been skipped. */
  function Settled(st: RState, src: Source, d: Decision): RState {
    var i := src.entry.index;
    if Readable(src, d)
    then RState(None, st.done + {i}, st.expected - 1, st.committed[i := src.content[..src.entry.size]], st.skipped)
    else RState(None, st.done + {i}, st.expected - 1, st.committed, st.skipped + {i})
  }

  predicate Ready(plans: seq<FilePlan>, approve: bool, st: RState, src: Source) {
    && PlansValid(plans)
    && src.entry.index < |plans|
    && src.entry == plans[src.entry.index].entry
    && Awaited(plans, approve, src.entry.index)
    && src.entry.index !in st.done
    && st.cur == None
  }

  /** Where this file's bytes start, and whether behind a restart marker; None when nothing but a skip is said. */
  datatype Body = Body(start: nat, restart: bool)

  function BodyOf(src: Source, d: Decision): Option<Body> {
    if !src.opens || !PrefixReads(src, d) then None
    else if !PrefixHashed(src, d) then Some(Body(0, false))
    else if !PrefixMatches(src, d) then Some(Body(0, true))
    else if !src.seeks then None
    else Some(Body(d.resumeOffset, false))
  }

  /** Both sides start this file's bytes at the same place, on the same prefix. */
  lemma BodyAgrees(plans: seq<FilePlan>, approve: bool, st: RState, src: Source)
    requires Ready(plans, approve, st, src)
    ensures var d := DecisionOf(plans, approve, src.entry.index);
            var body := BodyOf(src, d);
            body.Some? ==>
              && body.value.start < src.entry.size
              && body.value.start <= |src.content|
              && (body.value.restart ==> plans[src.entry.index].disp == Resume && body.value.start == 0)
              && (!body.value.restart ==>
                    Opened(plans, src.entry.index) == OpenFile(src.entry.index, src.content[..body.value.start]))
              && (Readable(src, d) <==> ReadUpTo(src, body.value.start) == src.entry.size)
    ensures BodyOf(src, DecisionOf(plans, approve, src.entry.index)).None? ==>
              !Readable(src, DecisionOf(plans, approve, src.entry.index))
  {
    var p := plans[src.entry.index];
    assert PlanValid(p);
    var d := DecisionOf(plans, approve, src.entry.index);
    ResumePassesGuard(src, p, approve);
    if PrefixMatches(src, d) {
      RootsAgree(p.partial[..p.resumeOffset], src.content[..p.resumeOffset]);
    }
  }

  /** After some of a file's bytes, the receiver holds exactly the source's first bytes. */
  lemma RunBodySoFar(plans: seq<FilePlan>, approve: bool, st: RState, src: Source, body: Body, end: nat)
    requires Ready(plans, approve, st, src)
    requires BodyOf(src, DecisionOf(plans, approve, src.entry.index)) == Some(body)
    requires body.start <= end <= src.entry.size && end <= |src.content|
    ensures Run(plans, approve, st, BodySoFar(src, body.start, end, body.restart)) ==
            Some(if end == body.start then st
                 else st.(cur := Some(OpenFile(src.entry.index, src.content[..end]))))
  {
    hide Run, FileRoot;
    BodyAgrees(plans, approve, st, src);
    var i := src.entry.index;
    var data := src.content[body.start..end];
    assert src.content[..body.start] + data == src.content[..end];
    var mark := if body.restart && body.start < end then [Restart(i)] else [];
    RunConcat(plans, approve, st, mark, DataAtoms(i, data));
    if end == body.start {
      assert BodySoFar(src, body.start, end, body.restart) == [];
      RunNothing(plans, approve, st);
    } else if body.restart {
      RunOne(plans, approve, st, Restart(i));
      RunData(plans, approve, st.(cur := Some(OpenFile(i, []))), i, data);
      assert [] + data == src.content[..end];
    } else {
      RunNothing(plans, approve, st);
      RunData(plans, approve, st, i, data);
    }
  }

  /** A file's whole script settles it: committed with the source's bytes, or skipped. */
  lemma RunFile(plans: seq<FilePlan>, approve: bool, st: RState, src: Source)
    requires Ready(plans, approve, st, src)
    ensures var d := DecisionOf(plans, approve, src.entry.index);
            Run(plans, approve, st, FileScript(src, d)) == Some(Settled(st, src, d))
  {
    hide Run, FileRoot, BodySoFar;
    var i := src.entry.index;
    var d := DecisionOf(plans, approve, i);
    BodyAgrees(plans, approve, st, src);
    match BodyOf(src, d)
    case None =>
      RunOne(plans, approve, st, Skip(i));
    case Some(body) =>
      var end := ReadUpTo(src, body.start);
      RunBodySoFar(plans, approve, st, src, body, end);
      var mid := if end == body.start then st else st.(cur := Some(OpenFile(i, src.content[..end])));
      var last := if end == src.entry.size then Eof(i, FileRoot(src.content[..end]), src.changed) else Skip(i);
      assert FileScript(src, d) == BodySoFar(src, body.start, end, body.restart) + [last];
      RunConcat(plans, approve, st, BodySoFar(src, body.start, end, body.restart), [last]);
      RunOne(plans, approve, mid, last);
  }

  // ---- all files ----

  /** The receiver's state after the first k files of the listing. */
  function AfterFiles(sources: seq<Source>, plans: seq<FilePlan>, approve: bool, k: nat): RState
    requires k <= |sources| == |plans|
  {
    if k == 0 then Start(plans, approve)
    else
      var st := AfterFiles(sources, plans, approve, k - 1);
      if Awaited(plans, approve, k - 1) then Settled(st, sources[k - 1], DecisionOf(plans, approve, k - 1)) else st
  }

  lemma {:induction false} ExpectedUpTo(plans: seq<FilePlan>, approve: bool, k: nat)
    requires k < |plans|
    ensures Expected(plans[..k + 1], approve) ==
            Expected(plans[..k], approve) + (if Awaited(plans, approve, k) then 1 else 0)
  {
    assert plans[..k + 1][..k] == plans[..k];
  }

  /** Spelled out: what is done, committed and skipped after the first k files, and what is still expected. */
  lemma {:induction false} AfterFilesIs(sources: seq<Source>, plans: seq<FilePlan>, approve: bool, k: nat)
    requires Matching(sources, plans) && k <= |sources|
    ensures var st := AfterFiles(sources, plans, approve, k);
            && st.cur == None
            && (forall i: nat :: i in st.done <==> i < k && Awaited(plans, approve, i))
            && (forall i: nat :: i in st.committed <==>
                  i < k && Awaited(plans, approve, i) && Readable(sources[i], DecisionOf(plans, approve, i)))
            && (forall i: nat :: i in st.committed ==> st.committed[i] == sources[i].content[..sources[i].entry.size])
            && (forall i: nat :: i in st.skipped <==>
                  i < k && Awaited(plans, approve, i) && !Readable(sources[i], DecisionOf(plans, approve, i)))
            && st.expected == Expected(plans, approve) - Expected(plans[..k], approve)
  {
    hide Readable, Awaited, PlanToDecision, PlanValid;
    if k > 0 {
      AfterFilesIs(sources, plans, approve, k - 1);
      ExpectedUpTo(plans, approve, k - 1);
      assert sources[k - 1].entry == plans[k - 1].entry && plans[k - 1].entry.index == k - 1;
    }
  }

  lemma {:induction false} RunFiles(sources: seq<Source>, plans: seq<FilePlan>, approve: bool, k: nat)
    requires Matching(sources, plans) && k <= |sources|
    ensures Run(plans, approve, Start(plans, approve), Script(sources[..k], Decisions(plans, approve))) ==
            Some(AfterFiles(sources, plans, approve, k))
  {
    hide Run, FileScript, Settled, Readable;
    var decisions, start := Decisions(plans, approve), Start(plans, approve);
    if k == 0 {
      RunNothing(plans, approve, start);
    } else {
      RunFiles(sources, plans, approve, k - 1);
      AfterFilesIs(sources, plans, approve, k - 1);
      assert sources[..k][..k - 1] == sources[..k - 1];
      var src, st := sources[k - 1], AfterFiles(sources, plans, approve, k - 1);
      assert src.entry == plans[k - 1].entry && src.entry.index == k - 1;
      assert Carries(src, decisions) <==> Awaited(plans, approve, k - 1);
      if Awaited(plans, approve, k - 1) {
        RunFile(plans, approve, st, src);
        RunConcat(plans, approve, start, Script(sources[..k - 1], decisions),
                  FileScript(src, DecisionOf(plans, approve, k - 1)));
      } else {
        assert Script(sources[..k], decisions) == Script(sources[..k - 1], decisions);
      }
    }
  }

  /** What every awaited file comes to. */
  ghost predicate Delivered(sources: seq<Source>, plans: seq<FilePlan>, approve: bool,
                            committed: map<nat, seq<byte>>, skipped: set<nat>)
    requires |sources| == |plans|
  {
    && (forall i: nat :: i in committed <==>
          Awaited(plans, approve, i) && Readable(sources[i], DecisionOf(plans, approve, i)))
    && (forall i: nat :: i in committed ==> committed[i] == sources[i].content[..sources[i].entry.size])
    && (forall i: nat :: i in skipped <==>
          Awaited(plans, approve, i) && !Readable(sources[i], DecisionOf(plans, approve, i)))
  }

  /**
   * End to end: fed an honest sender's script, the receiver refuses nothing,
   * commits each readable awaited file with exactly the source's bytes, skips
   * exactly the unreadable ones, and then expects nothing more.
   */
  lemma HonestDelivery(sources: seq<Source>, plans: seq<FilePlan>, approve: bool)
    requires Matching(sources, plans)
    ensures var end := Run(plans, approve, Start(plans, approve), Script(sources, Decisions(plans, approve)));
            && end.Some?
            && end.value.cur == None
            && end.value.expected == 0
            && Delivered(sources, plans, approve, end.value.committed, end.value.skipped)
  {
    hide Run, Readable, Script;
    assert sources[..|sources|] == sources && plans[..|plans|] == plans;
    RunFiles(sources, plans, approve, |sources|);
    AfterFilesIs(sources, plans, approve, |sources|);
  }

  // ---- what lands, told by the plans and the sources ----

  predicate SamePrefix(src: Source, p: FilePlan) {
    && p.resumeOffset <= |p.partial| && p.resumeOffset <= |src.content|
    && p.partial[..p.resumeOffset] == src.content[..p.resumeOffset]
  }

  /** Every read this file's transfer makes of the source succeeds: of the partial's bytes first, when it is resumed. */
  predicate ReadsThrough(src: Source, p: FilePlan) {
    && src.opens && src.entry.size <= |src.content|
    && (p.disp == Resume ==>
          && src.prefixOpens
          && (SamePrefix(src, p) ==> src.seeks))
  }

  /** The files that landed are those the user let land and whose sources could be read; of the others only the unreadable are skipped. */
  ghost predicate LandsExactly(sources: seq<Source>, plans: seq<FilePlan>, approve: bool,
                               committed: map<nat, seq<byte>>, skipped: set<nat>)
    requires |sources| == |plans|
  {
    && (forall i: nat :: i in committed <==>
          Lands(plans, approve, i) && ReadsThrough(sources[i], plans[i]))
    && (forall i: nat :: i in committed ==> committed[i] == sources[i].content[..sources[i].entry.size])
    && (forall i: nat :: i in skipped <==>
          Lands(plans, approve, i) && !ReadsThrough(sources[i], plans[i]))
  }

  lemma ReadableExactly(src: Source, p: FilePlan, approve: bool)
    requires PlanValid(p) && src.entry == p.entry && HasBytes(p.entry) && MayLand(p, approve)
    ensures Readable(src, PlanToDecision(p, approve)) <==> ReadsThrough(src, p)
  {
    hide FileRoot, BlockHashes;
    var d := PlanToDecision(p, approve);
    ResumePassesGuard(src, p, approve);
    if p.disp == Resume && p.resumeOffset <= |src.content| {
      PrefixRootIs(p);
      RootsAgree(p.partial[..p.resumeOffset], src.content[..p.resumeOffset]);
    }
  }

  lemma PrefixRootIs(p: FilePlan)
    requires PlanValid(p) && p.disp == Resume
    ensures FoldRoot(p.prefixBlocks, p.resumeOffset) == FileRoot(p.partial[..p.resumeOffset])
  {
  }

  lemma DeliveredLandsExactly(sources: seq<Source>, plans: seq<FilePlan>, approve: bool, committed: map<nat, seq<byte>>, skipped: set<nat>)
    requires Matching(sources, plans) && Delivered(sources, plans, approve, committed, skipped)
    ensures LandsExactly(sources, plans, approve, committed, skipped)
  {
    hide Awaited, Readable, ReadsThrough, PlanToDecision, PlanValid;
    forall i: nat
      ensures Awaited(plans, approve, i) <==> Lands(plans, approve, i)
      ensures Awaited(plans, approve, i) ==> (Readable(sources[i], DecisionOf(plans, approve, i)) <==> ReadsThrough(sources[i], plans[i]))
    {
      AwaitedExactly(plans, approve, i);
      if Awaited(plans, approve, i) {
        ReadableExactly(sources[i], plans[i], approve);
      }
    }
  }

  // ---- not a moment earlier ----

  predicate IsEnd(a: Atom) { a.Eof? || a.Skip? }

  function Ends(atoms: seq<Atom>): nat {
    if atoms == [] then 0
    else Ends(atoms[..|atoms| - 1]) + (if IsEnd(atoms[|atoms| - 1]) then 1 else 0)
  }

  /** Each accepted end marker counts down by one, and nothing else does. */
  lemma {:induction false} RunCountsDown(plans: seq<FilePlan>, approve: bool, st: RState, atoms: seq<Atom>)
    requires PlansValid(plans) && Run(plans, approve, st, atoms).Some?
    ensures Run(plans, approve, st, atoms).value.expected == st.expected - Ends(atoms)
  {
    if atoms != [] {
      RunCountsDown(plans, approve, st, atoms[..|atoms| - 1]);
    }
  }

  lemma {:induction false} EndsPrefix(atoms: seq<Atom>, k: nat)
    requires k < |atoms| && IsEnd(atoms[|atoms| - 1])
    ensures Ends(atoms[..k]) < Ends(atoms)
  {
    EndsMonotone(atoms[..|atoms| - 1], k);
    assert atoms[..|atoms| - 1][..k] == atoms[..k];
  }

  lemma {:induction false} EndsMonotone(atoms: seq<Atom>, k: nat)
    requires k <= |atoms|
    ensures Ends(atoms[..k]) <= Ends(atoms)
    decreases |atoms|
  {
    if k == |atoms| {
      assert atoms[..k] == atoms;
    } else {
      EndsMonotone(atoms[..|atoms| - 1], k);
      assert atoms[..|atoms| - 1][..k] == atoms[..k];
    }
  }

  /** A non-empty script ends in an end marker. */
  lemma {:induction false} ScriptEnds(sources: seq<Source>, decisions: map<nat, Decision>)
    ensures var s := Script(sources, decisions); s != [] ==> IsEnd(s[|s| - 1])
  {
    if sources != [] {
      ScriptEnds(sources[..|sources| - 1], decisions);
      var src := sources[|sources| - 1];
      if Carries(src, decisions) {
        FileScriptEnds(src, decisions[src.entry.index]);
      }
    }
  }

  lemma FileScriptEnds(src: Source, d: Decision)
    ensures var s := FileScript(src, d); s != [] && IsEnd(s[|s| - 1])
  {
  }

  /** The receiver still waits for something at every earlier point of the stream. */
  lemma ExpectsUntilTheEnd(sources: seq<Source>, plans: seq<FilePlan>, approve: bool, k: nat)
    requires Matching(sources, plans)
    requires k < |Script(sources, Decisions(plans, approve))|
    ensures var mid := Run(plans, approve, Start(plans, approve), Script(sources, Decisions(plans, approve))[..k]);
            mid.Some? && mid.value.expected > 0
  {
    hide Run, Script, Readable, PlanToDecision, Ends;
    var start, atoms := Start(plans, approve), Script(sources, Decisions(plans, approve));
    HonestDelivery(sources, plans, approve);
    assert atoms == atoms[..k] + atoms[k..];
    RunConcat(plans, approve, start, atoms[..k], atoms[k..]);
    RunCountsDown(plans, approve, start, atoms);
    RunCountsDown(plans, approve, start, atoms[..k]);
    ScriptEnds(sources, Decisions(plans, approve));
    EndsPrefix(atoms, k);
  }

  // ---- any stream at all ----

  ghost predicate EndSaid(atoms: seq<Atom>, index: nat, root: Root) {
    exists m :: 0 <= m < |atoms| && atoms[m].Eof? && atoms[m].index == index && atoms[m].root == root
  }

  /** What holds of the receiver after any stream it has not refused, honest or not. */
  ghost predicate Consented(plans: seq<FilePlan>, approve: bool, atoms: seq<Atom>, st: RState) {
    && (forall i: nat :: i in st.done <==> i in st.committed || i in st.skipped)
    && (forall i: nat :: i in st.committed ==> i !in st.skipped)
    && (forall i: nat :: i in st.done ==> Awaited(plans, approve, i))
    && (st.cur.Some? ==> Awaited(plans, approve, st.cur.value.index) && st.cur.value.index !in st.done)
    && (forall i: nat :: i in st.committed ==>
          i < |plans| && |st.committed[i]| == plans[i].entry.size && EndSaid(atoms, i, FileRoot(st.committed[i])))
    && st.expected == Expected(plans, approve) - |st.done|
  }

  /**
   * Whatever the stream says, bytes are committed only for files the receiver
   * asked for, once each, at their declared size, under the root the sender
   * declared for exactly those bytes.
   */
  lemma {:induction false} OnlyConsentedData(plans: seq<FilePlan>, approve: bool, atoms: seq<Atom>)
    requires PlansValid(plans)
    requires Run(plans, approve, Start(plans, approve), atoms).Some?
    ensures Consented(plans, approve, atoms, Run(plans, approve, Start(plans, approve), atoms).value)
  {
    hide Awaited, FileRoot, Expected, PlansValid, Step, Consented;
    if atoms == [] {
      StartConsented(plans, approve);
    } else {
      var front, a := atoms[..|atoms| - 1], atoms[|atoms| - 1];
      OnlyConsentedData(plans, approve, front);
      assert atoms == front + [a];
      ConsentedStep(plans, approve, front, Run(plans, approve, Start(plans, approve), front).value, a);
    }
  }

  lemma StartConsented(plans: seq<FilePlan>, approve: bool)
    requires PlansValid(plans)
    ensures Consented(plans, approve, [], Start(plans, approve))
  {
  }

  lemma EndStillSaid(atoms: seq<Atom>, a: Atom)
    ensures forall i: nat, root: Root :: EndSaid(atoms, i, root) ==> EndSaid(atoms + [a], i, root)
    ensures a.Eof? ==> EndSaid(atoms + [a], a.index, a.root)
  {
    forall i: nat, root: Root | EndSaid(atoms, i, root)
      ensures EndSaid(atoms + [a], i, root)
    {
      var m :| 0 <= m < |atoms| && atoms[m].Eof? && atoms[m].index == i && atoms[m].root == root;
      assert (atoms + [a])[m] == atoms[m];
    }
    assert (atoms + [a])[|atoms|] == a;
  }

  lemma ConsentedCommit(plans: seq<FilePlan>, approve: bool, atoms: seq<Atom>, st: RState, a: Atom, data: seq<byte>)
    requires Consented(plans, approve, atoms, st) && a.Eof?
    requires Awaited(plans, approve, a.index) && a.index !in st.done
    requires |data| == plans[a.index].entry.size && FileRoot(data) == a.root
    ensures Consented(plans, approve, atoms + [a],
                      RState(None, st.done + {a.index}, st.expected - 1, st.committed[a.index := data], st.skipped))
  {
    hide PlanToDecision, FileRoot, Expected, EndSaid;
    EndStillSaid(atoms, a);
    assert |st.done + {a.index}| == |st.done| + 1;
  }

  lemma ConsentedSkip(plans: seq<FilePlan>, approve: bool, atoms: seq<Atom>, st: RState, a: Atom)
    requires Consented(plans, approve, atoms, st)
    requires Awaited(plans, approve, a.index) && a.index !in st.done
    ensures Consented(plans, approve, atoms + [a],
                      RState(None, st.done + {a.index}, st.expected - 1, st.committed, st.skipped + {a.index}))
  {
    hide PlanToDecision, FileRoot, Expected, EndSaid;
    EndStillSaid(atoms, a);
    assert |st.done + {a.index}| == |st.done| + 1;
  }

  lemma ConsentedOpen(plans: seq<FilePlan>, approve: bool, atoms: seq<Atom>, st: RState, a: Atom, f: OpenFile)
    requires Consented(plans, approve, atoms, st)
    requires Awaited(plans, approve, f.index) && f.index !in st.done
    ensures Consented(plans, approve, atoms + [a], st.(cur := Some(f)))
  {
    hide PlanToDecision, FileRoot, Expected, EndSaid;
    EndStillSaid(atoms, a);
  }

  lemma ConsentedStep(plans: seq<FilePlan>, approve: bool, atoms: seq<Atom>, st: RState, a: Atom)
    requires PlansValid(plans) && Consented(plans, approve, atoms, st)
    requires Step(plans, approve, st, a).Some?
    ensures Consented(plans, approve, atoms + [a], Step(plans, approve, st, a).value)
  {
    hide PlanToDecision, FileRoot, Expected, PlanValid, Consented;
    var after := Step(plans, approve, st, a).value;
    match a
    case Skip(_) => ConsentedSkip(plans, approve, atoms, st, a);
    case Eof(_, _, _) => ConsentedCommit(plans, approve, atoms, st, a, OpenOr(plans, st, a.index).received);
    case Restart(_) => ConsentedOpen(plans, approve, atoms, st, a, after.cur.value);
    case Data(_, _) =>
      assert after.cur.value.index == a.index;
      ConsentedOpen(plans, approve, atoms, st, a, after.cur.value);
  }
}
