/** Why a pairing round ends without a winner, and that a pairing it hears of in time wins. */
module RaceEnds {
  import opened Basics
  import opened Race

  /** A local failure, other than being told to stop. */
  predicate LocalFailed(r: Round) {
    r.lan.err.Some? && r.lan.err != Some(Canceled)
  }

  /** What has been heard leaves nothing to wait for: each side is heard or off, a fault is fatal, or only an unreachable server is left. */
  predicate Hopeless(r: Round) {
    || (r.lan.done && r.server.done)
    || r.lan.err == Some(TooManyFailures) || r.server.err == Some(TooManyFailures) || r.server.err == Some(PairedGone)
    || (LocalFailed(r) && r.downErr.Some?)
  }

  /** The fault a round gave up with. */
  function Given(p: Phase): Option<Fault> {
    match p
    case Draining(_, _, f) => Some(f)
    case Returned(Gave(f)) => Some(f)
    case _ => None
  }

  /** The server's fault as known: with the local side failed, the latest report, else its own outcome. */
  function ServerFault(r: Round): Option<Fault> {
    if LocalFailed(r) && r.downErr.Some? then r.downErr else r.server.err
  }

  /** A fatal fault is reported as it is; otherwise an unreachable server first, then the local fault, then the server's. */
  predicate Reported(r: Round, f: Fault) {
    if r.lan.err == Some(TooManyFailures) || r.server.err == Some(TooManyFailures) then f == TooManyFailures
    else if r.server.err == Some(PairedGone) then f == PairedGone
    else if ServerFault(r) == Some(Unreachable) then f == Unreachable
    else Some(f) == (if r.lan.err.Some? then r.lan.err else ServerFault(r))
  }

  /** The step receives a pairing. */
  predicate TakesPairing(r: Round, step: Step, side: Side) {
    step == (if side.Lan? then TakeLan else TakeServer) && At(r, side).ch == Some(Paired)
  }

  /** One step out of a race that still has hope. */
  predicate LeavesFor(r: Round, step: Step) {
    var next := Next(r, step);
    if TakesPairing(r, step, Lan) then next.phase == Transferring(Lan)
    else if TakesPairing(r, step, Server) then next.phase == Transferring(Server)
    else if step.Stop? then Given(next.phase) == Some(step.fault)
    else if Hopeless(next) then Given(next.phase).Some? && Reported(next, Given(next.phase).value)
    else next.phase.Racing?
  }

  lemma TakesLanFor(r: Round)
    requires Inv(r) && r.phase.Racing? && !Hopeless(r)
    ensures LeavesFor(r, TakeLan)
  {
    hide CodeSound;
  }

  lemma TakesServerFor(r: Round)
    requires Inv(r) && r.phase.Racing? && !Hopeless(r)
    ensures LeavesFor(r, TakeServer)
  {
    hide CodeSound;
  }

  lemma OthersLeaveFor(r: Round, step: Step)
    requires Inv(r) && r.phase.Racing? && !Hopeless(r) && !step.TakeLan? && !step.TakeServer?
    ensures LeavesFor(r, step)
  {
  }

  lemma StepLeavesFor(r: Round, step: Step)
    requires Inv(r) && r.phase.Racing? && !Hopeless(r)
    ensures LeavesFor(r, step)
  {
    hide LeavesFor, Hopeless, Inv;
    match step
    case TakeLan => TakesLanFor(r);
    case TakeServer => TakesServerFor(r);
    case _ => OthersLeaveFor(r, step);
  }

  /** What is received while the race is on is remembered. */
  lemma Remembered(r: Round)
    requires Inv(r) && r.phase.Racing?
    ensures r.lan.ch.Some? && r.lan.ch.value.Failed? ==> Next(r, TakeLan).lan.err == Some(r.lan.ch.value.fault) && Next(r, TakeLan).lan.done
    ensures r.server.ch.Some? && r.server.ch.value.Failed? ==>
              var f, next := r.server.ch.value.fault, Next(r, TakeServer);
              && next.server.err == Some(f) && next.server.done
              && next.downErr == if f in {Canceled, PairedGone, TooManyFailures} then r.downErr else Some(f)
    ensures r.downCh.Some? ==> Next(r, TakeDown).downErr == r.downCh
  {
  }

  lemma StartsWithHope(lanOff: bool, serverOff: bool, resume: bool)
    requires !(lanOff && serverOff)
    ensures !Hopeless(Start(lanOff, serverOff, resume))
  {
  }

  lemma NeverRacesAgain(r: Round, step: Step)
    requires !r.phase.Racing?
    ensures !Next(r, step).phase.Racing? && Next(r, step).paired == r.paired
  {
    hide PickFinal, Take, Finishes, DrainsLoser;
    FinishKeepsPhase(r, step);
    if step.DrainLan? && r.lan.ch.Some? {
      TakeKeepsPhase(r, Lan);
    }
    if step.DrainServer? && r.server.ch.Some? {
      TakeKeepsPhase(r, Server);
    }
    LoserKeepsPhase(r);
  }

  lemma FinishKeepsPhase(r: Round, step: Step)
    ensures step.Finish? ==> Finishes(r, step.side, step.outcome).phase == r.phase && Finishes(r, step.side, step.outcome).paired == r.paired
  {
  }

  lemma TakeKeepsPhase(r: Round, side: Side)
    requires At(r, side).ch.Some?
    ensures Take(r, side, true).phase == r.phase && Take(r, side, true).paired == r.paired
  {
  }

  lemma LoserKeepsPhase(r: Round)
    ensures DrainsLoser(r).phase == r.phase && DrainsLoser(r).paired == r.paired
  {
  }

  /** As long as it races there is hope: a round never goes on when nothing is left to wait for. */
  lemma {:induction false} RacesWithHope(lanOff: bool, serverOff: bool, resume: bool, steps: seq<Step>)
    requires !(lanOff && serverOff)
    ensures var r := Run(Start(lanOff, serverOff, resume), steps);
            r.phase.Racing? ==> !Hopeless(r)
  {
    hide Next, Inv, Hopeless;
    if steps == [] {
      StartsWithHope(lanOff, serverOff, resume);
    } else {
      var front, step := steps[..|steps| - 1], steps[|steps| - 1];
      var r := Run(Start(lanOff, serverOff, resume), front);
      RunKeeps(lanOff, serverOff, resume, front);
      RacesWithHope(lanOff, serverOff, resume, front);
      if r.phase.Racing? {
        StepLeavesFor(r, step);
      } else {
        NeverRacesAgain(r, step);
      }
    }
  }

  /**
   * Every step of every race: a pairing received wins, a stop ends it, and
   * otherwise it ends exactly when what was heard leaves no hope, with the
   * fault that says most.
   */
  lemma RaceEndsExactly(lanOff: bool, serverOff: bool, resume: bool, steps: seq<Step>, step: Step)
    requires !(lanOff && serverOff) && Run(Start(lanOff, serverOff, resume), steps).phase.Racing?
    ensures LeavesFor(Run(Start(lanOff, serverOff, resume), steps), step)
  {
    hide Next, Inv, Hopeless, LeavesFor;
    RunKeeps(lanOff, serverOff, resume, steps);
    RacesWithHope(lanOff, serverOff, resume, steps);
    StepLeavesFor(Run(Start(lanOff, serverOff, resume), steps), step);
  }

  // ---- what was heard is what was said ----

  predicate SaidFailure(steps: seq<Step>, side: Side) {
    exists k :: 0 <= k < |steps| && steps[k].Finish? && steps[k].side == side && steps[k].outcome.Failed?
  }

  predicate SaidDown(steps: seq<Step>) {
    exists k :: 0 <= k < |steps| && steps[k].NoticeDown?
  }

  predicate Stopped(steps: seq<Step>) {
    exists k :: 0 <= k < |steps| && steps[k].Stop?
  }

  predicate SourcedPath(p: Path, side: Side, steps: seq<Step>) {
    && (p.ch.Some? ==> Finish(side, p.ch.value) in steps)
    && (p.err.Some? ==> Finish(side, Failed(p.err.value)) in steps)
  }

  /** Outcomes in channels and faults heard were put there by their goroutines. */
  predicate Sourced(r: Round, steps: seq<Step>) {
    && SourcedPath(r.lan, Lan, steps) && SourcedPath(r.server, Server, steps)
    && (r.downCh.Some? ==> NoticeDown(r.downCh.value) in steps)
    && (r.downErr.Some? ==> NoticeDown(r.downErr.value) in steps || Finish(Server, Failed(r.downErr.value)) in steps)
  }

  /** What one step can do to a side: nothing, put its outcome in the channel, or take it out. */
  predicate PathMoves(p: Path, q: Path, side: Side, step: Step) {
    && (q.ch.Some? ==> q.ch == p.ch || step == Finish(side, q.ch.value))
    && (q.err.Some? ==> q.err == p.err || p.ch == Some(Failed(q.err.value)))
    && (p.worker.Off? <==> q.worker.Off?)
  }

  predicate DownMoves(r: Round, next: Round, step: Step) {
    && (next.downCh.Some? ==> next.downCh == r.downCh || step == NoticeDown(next.downCh.value))
    && (next.downErr.Some? ==>
          next.downErr == r.downErr || next.downErr == r.downCh || r.server.ch == Some(Failed(next.downErr.value)))
  }

  predicate Moves(r: Round, next: Round, step: Step) {
    PathMoves(r.lan, next.lan, Lan, step) && PathMoves(r.server, next.server, Server, step) && DownMoves(r, next, step)
  }

  lemma FinishMoves(r: Round, side: Side, outcome: Outcome)
    ensures Moves(r, Finishes(r, side, outcome), Finish(side, outcome))
  {
  }

  lemma TakeMoves(r: Round, side: Side, clean: bool, step: Step)
    requires At(r, side).ch.Some?
    ensures Moves(r, Take(r, side, clean), step)
  {
    hide Consumes;
  }

  /** The phase may change, but nothing about the sides. */
  predicate SameSides(r: Round, next: Round) {
    next.lan == r.lan && next.server == r.server && next.downCh == r.downCh && next.downErr == r.downErr
  }

  lemma StillMoves(r: Round, mid: Round, next: Round, step: Step)
    requires Moves(r, mid, step) && SameSides(mid, next)
    ensures Moves(r, next, step)
  {
  }

  lemma Idles(r: Round, next: Round, step: Step)
    requires SameSides(r, next)
    ensures Moves(r, next, step)
  {
  }

  lemma LanMoves(r: Round)
    ensures Moves(r, HearsLan(r), TakeLan)
  {
    hide Take, PickFinal, Moves;
    if r.phase.Racing? && r.lan.ch.Some? {
      TakeMoves(r, Lan, false, TakeLan);
      StillMoves(r, Take(r, Lan, false), HearsLan(r), TakeLan);
    } else {
      Idles(r, r, TakeLan);
    }
  }

  lemma HeardMoves(r: Round, mid: Round, heard: Round)
    requires Moves(r, mid, TakeServer) && r.server.ch.Some?
    requires heard == if r.server.ch.value.Failed? then mid.(downErr := Some(r.server.ch.value.fault)) else mid
    ensures Moves(r, heard, TakeServer)
  {
  }

  function Heard(r: Round): Round
    requires r.server.ch.Some?
  {
    var mid := Take(r, Server, false);
    if r.server.ch.value.Failed? then mid.(downErr := Some(r.server.ch.value.fault)) else mid
  }

  lemma ServerSides(r: Round)
    requires r.phase.Racing? && r.server.ch.Some?
    ensures SameSides(Take(r, Server, false), HearsServer(r)) || SameSides(Heard(r), HearsServer(r))
  {
    hide Take, PickFinal;
  }

  lemma ServerMoves(r: Round)
    ensures Moves(r, HearsServer(r), TakeServer)
  {
    hide Take, PickFinal, Moves, LoopEnd, Win, Abort, SameSides;
    if r.phase.Racing? && r.server.ch.Some? {
      ServerSides(r);
      hide HearsServer;
      var mid := Take(r, Server, false);
      TakeMoves(r, Server, false, TakeServer);
      HeardMoves(r, mid, Heard(r));
      if SameSides(mid, HearsServer(r)) {
        StillMoves(r, mid, HearsServer(r), TakeServer);
      } else {
        StillMoves(r, Heard(r), HearsServer(r), TakeServer);
      }
    } else {
      assert SameSides(r, r) by { NothingMoved(r); }
      Idles(r, r, TakeServer);
    }
  }

  lemma NothingMoved(r: Round)
    ensures SameSides(r, r)
  {
  }

  lemma DrainsMove(r: Round)
    ensures Moves(r, DrainsLan(r), DrainLan) && Moves(r, DrainsServer(r), DrainServer)
  {
    hide Take, Moves;
    Idles(r, r, DrainLan);
    Idles(r, r, DrainServer);
    if r.lan.ch.Some? {
      TakeMoves(r, Lan, true, DrainLan);
      StillMoves(r, Take(r, Lan, true), Take(r, Lan, true).(phase := DrainsLan(r).phase), DrainLan);
    }
    if r.server.ch.Some? {
      TakeMoves(r, Server, true, DrainServer);
      StillMoves(r, Take(r, Server, true), Take(r, Server, true).(phase := DrainsServer(r).phase), DrainServer);
    }
  }

  lemma LoserMoves(r: Round)
    ensures Moves(r, DrainsLoser(r), DrainLoser)
  {
    hide Take, Moves;
    Idles(r, r, DrainLoser);
    if r.loser.Some? && At(r, r.loser.value).ch.Some? {
      TakeMoves(r, r.loser.value, true, DrainLoser);
      StillMoves(r, Take(r, r.loser.value, true), DrainsLoser(r), DrainLoser);
    }
  }

  lemma EndMoves(r: Round)
    ensures Moves(r, Ends(r), EndTransfer)
  {
    hide Consumes;
  }

  lemma DownMoved(r: Round)
    ensures Moves(r, HearsDown(r), TakeDown)
  {
    hide PickFinal;
  }

  lemma StepMoves(r: Round, step: Step)
    ensures Moves(r, Next(r, step), step)
  {
    hide Finishes, HearsDown, HearsLan, HearsServer, DrainsLan, DrainsServer, DrainsLoser, Ends;
    match step
    case Finish(side, outcome) => FinishMoves(r, side, outcome);
    case TakeDown => DownMoved(r);
    case TakeLan => LanMoves(r);
    case TakeServer => ServerMoves(r);
    case DrainLan => DrainsMove(r);
    case DrainServer => DrainsMove(r);
    case DrainLoser => LoserMoves(r);
    case EndTransfer => EndMoves(r);
    case _ =>
  }

  lemma StepSourced(r: Round, steps: seq<Step>, step: Step)
    requires Sourced(r, steps)
    ensures Sourced(Next(r, step), steps + [step])
  {
    StepMoves(r, step);
    hide Next;
    assert forall s <- steps :: s in steps + [step];
    assert step in steps + [step];
  }

  lemma {:induction false} RunSourced(start: Round, steps: seq<Step>)
    requires Sourced(start, [])
    ensures Sourced(Run(start, steps), steps)
  {
    hide Next, Sourced;
    if steps != [] {
      var front, step := steps[..|steps| - 1], steps[|steps| - 1];
      RunSourced(start, front);
      StepSourced(Run(start, front), front, step);
      assert front + [step] == steps;
    }
  }

  /** Why a round may give up, told by what the goroutines said. */
  predicate HasReason(lanOff: bool, serverOff: bool, steps: seq<Step>) {
    || Stopped(steps)
    || ((lanOff || SaidFailure(steps, Lan)) && (serverOff || SaidFailure(steps, Server)))
    || Finish(Lan, Failed(TooManyFailures)) in steps || Finish(Server, Failed(TooManyFailures)) in steps
    || Finish(Server, Failed(PairedGone)) in steps
    || (SaidFailure(steps, Lan) && (SaidDown(steps) || SaidFailure(steps, Server)))
  }

  lemma ReasonStays(lanOff: bool, serverOff: bool, steps: seq<Step>, step: Step)
    requires HasReason(lanOff, serverOff, steps)
    ensures HasReason(lanOff, serverOff, steps + [step])
  {
    var more := steps + [step];
    assert forall k :: 0 <= k < |steps| ==> more[k] == steps[k];
    assert forall s <- steps :: s in more;
  }

  /** Which sides ran. */
  predicate SidesAre(r: Round, lanOff: bool, serverOff: bool) {
    (r.lan.worker.Off? <==> lanOff) && (r.server.worker.Off? <==> serverOff)
  }

  lemma MovesKeepSides(r: Round, next: Round, step: Step, lanOff: bool, serverOff: bool)
    requires SidesAre(r, lanOff, serverOff) && Moves(r, next, step)
    ensures SidesAre(next, lanOff, serverOff)
  {
  }

  lemma {:induction false} RunKeepsSides(start: Round, steps: seq<Step>, lanOff: bool, serverOff: bool)
    requires SidesAre(start, lanOff, serverOff)
    ensures SidesAre(Run(start, steps), lanOff, serverOff)
  {
    hide Next, Moves, SidesAre;
    if steps != [] {
      var r, step := Run(start, steps[..|steps| - 1]), steps[|steps| - 1];
      RunKeepsSides(start, steps[..|steps| - 1], lanOff, serverOff);
      StepMoves(r, step);
      MovesKeepSides(r, Next(r, step), step, lanOff, serverOff);
    }
  }

  lemma HopelessHasReason(r: Round, steps: seq<Step>, lanOff: bool, serverOff: bool)
    requires Sourced(r, steps) && SidesAre(r, lanOff, serverOff) && Hopeless(r)
    requires (r.lan.done ==> lanOff || r.lan.err.Some?) && (r.server.done ==> serverOff || r.server.err.Some?)
    ensures HasReason(lanOff, serverOff, steps)
  {
    assert At(r, Lan) == r.lan && At(r, Server) == r.server;
    if r.lan.err.Some? {
      var k :| 0 <= k < |steps| && steps[k] == Finish(Lan, Failed(r.lan.err.value));
    }
    if r.server.err.Some? {
      var k :| 0 <= k < |steps| && steps[k] == Finish(Server, Failed(r.server.err.value));
    }
    if r.downErr.Some? {
      if NoticeDown(r.downErr.value) in steps {
        var k :| 0 <= k < |steps| && steps[k] == NoticeDown(r.downErr.value);
      } else {
        var k :| 0 <= k < |steps| && steps[k] == Finish(Server, Failed(r.downErr.value));
      }
    }
  }

  /** With no winner, a side the round is done with is off or was heard to fail. */
  lemma DoneWasHeard(r: Round, step: Step, lanOff: bool, serverOff: bool)
    requires Inv(r) && r.phase.Racing? && SidesAre(r, lanOff, serverOff) && !Next(r, step).paired
    ensures var next := Next(r, step);
            (next.lan.done ==> lanOff || next.lan.err.Some?) && (next.server.done ==> serverOff || next.server.err.Some?)
  {
    hide PickFinal;
  }

  /**
   * In every run a round gives up only when it was stopped, when every side it
   * tried failed, when guesses at the code ran out or a receiver paired and
   * vanished, or when the local side failed with the server known to be down.
   */
  lemma {:induction false} GivesUpForAReason(lanOff: bool, serverOff: bool, resume: bool, steps: seq<Step>)
    requires !(lanOff && serverOff)
    ensures var r := Run(Start(lanOff, serverOff, resume), steps);
            !r.phase.Racing? && !r.paired ==> HasReason(lanOff, serverOff, steps)
  {
    hide Next, Inv, HasReason, Sourced, Hopeless, Reported, SidesAre;
    StartSourced(lanOff, serverOff, resume);
    if steps != [] {
      var start, front, step := Start(lanOff, serverOff, resume), steps[..|steps| - 1], steps[|steps| - 1];
      assert front + [step] == steps;
      var r := Run(start, front);
      GivesUpForAReason(lanOff, serverOff, resume, front);
      RunKeeps(lanOff, serverOff, resume, front);
      if !r.phase.Racing? {
        NeverRacesAgain(r, step);
        if !r.paired {
          ReasonStays(lanOff, serverOff, front, step);
        }
      } else if !Run(start, steps).phase.Racing? && !Run(start, steps).paired {
        RaceEndsExactly(lanOff, serverOff, resume, front, step);
        if step.Stop? {
          StopIsReason(lanOff, serverOff, steps);
        } else {
          RunSourced(start, steps);
          RunKeepsSides(start, front, lanOff, serverOff);
          RunKeepsSides(start, steps, lanOff, serverOff);
          DoneWasHeard(r, step, lanOff, serverOff);
          WinnersPair(r, step);
          HopelessHasReason(Run(start, steps), steps, lanOff, serverOff);
        }
      }
    }
  }

  lemma StopIsReason(lanOff: bool, serverOff: bool, steps: seq<Step>)
    requires steps != [] && steps[|steps| - 1].Stop?
    ensures HasReason(lanOff, serverOff, steps)
  {
  }

  lemma StartSourced(lanOff: bool, serverOff: bool, resume: bool)
    ensures Sourced(Start(lanOff, serverOff, resume), []) && SidesAre(Start(lanOff, serverOff, resume), lanOff, serverOff)
  {
  }

  /** A round that starts its transfer has a winner. */
  lemma WinnersPair(r: Round, step: Step)
    requires Inv(r)
    ensures Next(r, step).phase.Transferring? ==> Next(r, step).paired
  {
    StepKeeps(r, step);
    hide Next;
  }

  // ---- every step does its part ----

  /** A goroutine that finishes is heard of; so are the server path's session and its notices. */
  lemma GoroutinesAct(r: Round, side: Side, outcome: Outcome, fault: Fault)
    requires Inv(r)
    ensures At(r, side).worker.Running? && (side.Lan? || r.open || !NeedsSession(outcome)) ==>
              At(Next(r, Finish(side, outcome)), side).ch == Some(outcome) && At(Next(r, Finish(side, outcome)), side).worker.Over?
    ensures r.server.worker.Running? ==> Next(r, Create).open && !Next(r, Lose).open
    ensures r.server.worker.Running? && !r.lan.worker.Off? ==> Next(r, NoticeDown(fault)).downCh.Some?
  {
  }

  /** Whatever the coordinator is able to do brings the round nearer to its end. */
  lemma EnabledMoves(r: Round, step: Step)
    requires Inv(r) && Enabled(r, step)
    ensures Rank(Next(r, step)) < Rank(r)
  {
    hide PickFinal, CodeSound;
    StepKeeps(r, step);
    EnabledChanges(r, step);
    hide Next, Inv, Rank;
  }

  lemma EnabledChanges(r: Round, step: Step)
    requires Inv(r) && Enabled(r, step)
    ensures Next(r, step) != r && !Background(step)
  {
    hide PickFinal, CodeSound;
  }
}
