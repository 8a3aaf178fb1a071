/**
 * One pairing round of the sender: two goroutines try to pair, over the local
 * network and through the server, and a coordinator picks the first that does.
 * A run is any interleaving of their steps, of server sessions created and
 * lost, of server-down notices, of the round's time limit and of cancellation.
 * A step that is not enabled does nothing.
 */
module Race {
  import opened Basics

  datatype Side = Lan | Server

  function Other(side: Side): Side {
    if side.Lan? then Server else Lan
  }

  datatype Fault = Canceled | TooManyFailures | PairedGone | Unreachable | BudgetSpent | OtherFault | Expired

  datatype Outcome = Paired | Failed(fault: Fault)

  datatype Worker = Off | Running | Over

  /** One way to pair: its goroutine, its one-place channel, and what the coordinator knows of it. */
  datatype Path = Path(
    worker: Worker,
    ch: Option<Outcome>,
    done: bool,           // the coordinator has its outcome, or never waits for one
    err: Option<Fault>,
    made: nat,            // history: pairings its goroutine produced,
    taken: nat,           // receives from its channel,
    cleaned: nat)         // and cleanups of its pairing

  datatype Ending = Sent(side: Side) | Gave(fault: Fault)

  datatype Phase =
    | Racing
    | Draining(lan: bool, server: bool, fault: Fault)  // gave up: channels still to be drained, the local one first
    | Transferring(winner: Side)
    | Closing(winner: Side)                            // transfer over and cleaned up, waiting for the loser's teardown
    | Returned(ending: Ending)

  datatype Round = Round(
    lan: Path,
    server: Path,
    downCh: Option<Fault>,
    downErr: Option<Fault>,
    cancelled: bool,
    phase: Phase,
    loser: Option<Side>,     // being drained in the background
    resume: bool,            // the round pairs on a resume key, not on the code
    paired: bool,            // a winner was picked
    open: bool,              // a server session was created, and neither ended nor lost by the server
    ended: Option<bool>,     // how the server session was ended: consumed, or merely deleted
    failedFirst: bool)       // the server path had failed before the winner was picked

  function Idle(off: bool): Path {
    Path(if off then Off else Running, None, off, None, 0, 0, 0)
  }

  /** A mode may switch one side off, not both. */
  function Start(lanOff: bool, serverOff: bool, resume: bool): Round {
    Round(Idle(lanOff), Idle(serverOff), None, None, false, Racing, None, resume, false, false, None, false)
  }

  datatype Step =
    | Finish(side: Side, outcome: Outcome)  // the goroutine puts its outcome in its channel
    | Create | Lose                         // the server path creates its session; the server loses it
    | NoticeDown(fault: Fault)              // the server path reports the server down
    | Stop(fault: Fault)                    // cancelled, or the round's time is up
    | TakeDown | TakeLan | TakeServer
    | DrainLan | DrainServer
    | DrainLoser
    | EndTransfer
    | Return

  function At(r: Round, side: Side): Path {
    if side.Lan? then r.lan else r.server
  }

  function Put(r: Round, side: Side, p: Path): Round {
    if side.Lan? then r.(lan := p) else r.(server := p)
  }

  /** Which of two failures to report: an unreachable server first, then the local one. */
  function PickFinal(lanErr: Option<Fault>, serverErr: Option<Fault>): Fault {
    if serverErr == Some(Unreachable) then Unreachable
    else if lanErr.Some? then lanErr.value
    else if serverErr.Some? then serverErr.value
    else OtherFault
  }

  /** Ending the server session consumes the code once a receiver has paired on it. */
  function Consumes(r: Round): bool {
    r.paired && !r.resume
  }

  function Drained(lan: bool, server: bool, fault: Fault): Phase {
    if !lan && !server then Returned(Gave(fault)) else Draining(lan, server, fault)
  }

  function Abort(r: Round, fault: Fault): Round {
    r.(cancelled := true, phase := Drained(!r.lan.done, !r.server.done, fault))
  }

  /** The outcome leaves the channel; a pairing that nobody wants is cleaned up. */
  function Take(r: Round, side: Side, clean: bool): Round
    requires At(r, side).ch.Some?
  {
    var p := At(r, side);
    var out := p.ch.value;
    var drop := clean && out.Paired?;
    var q := p.(ch := None, done := true, taken := p.taken + 1,
                err := if out.Failed? then Some(out.fault) else p.err,
                cleaned := p.cleaned + if drop then 1 else 0);
    var s := Put(r, side, q);
    if drop && side.Server? then EndSession(s, r) else s
  }

  /** Ends the server session, by the round as it stands. */
  function EndSession(s: Round, r: Round): Round {
    s.(open := false, ended := Some(Consumes(r)))
  }

  /** A winner: the round counts as paired before the loser is told to stop. */
  function Win(r: Round, side: Side): Round {
    var other := Other(side);
    r.(phase := Transferring(side), paired := true, cancelled := true,
       loser := if At(r, other).done then None else Some(other),
       failedFirst := r.server.err.Some? || (r.server.ch.Some? && r.server.ch.value.Failed?))
  }

  /** The select loop's test. */
  function LoopEnd(r: Round): Round {
    if r.lan.done && r.server.done then r.(phase := Returned(Gave(PickFinal(r.lan.err, r.server.err)))) else r
  }

  /** The server path pairs, and hears of a spent budget, only on a session of its own. */
  predicate NeedsSession(outcome: Outcome) {
    outcome.Paired? || outcome.fault.BudgetSpent?
  }

  /** A server path that fails ends its session, if it has one; one whose budget is spent leaves it to the receiver. */
  function Finishes(r: Round, side: Side, outcome: Outcome): Round {
    var p := At(r, side);
    if !p.worker.Running? || (side.Server? && NeedsSession(outcome) && !r.open) then r
    else
      var q := p.(worker := Over, ch := Some(outcome), made := p.made + if outcome.Paired? then 1 else 0);
      var s := Put(r, side, q);
      if side.Server? && r.open && outcome.Failed? && !outcome.fault.BudgetSpent? then EndSession(s, r) else s
  }

  function HearsDown(r: Round): Round {
    if !r.phase.Racing? || r.downCh.None? then r
    else
      var fault := r.downCh.value;
      var s := r.(downCh := None, downErr := Some(fault));
      if r.lan.done && r.lan.err.Some? && r.lan.err != Some(Canceled) then Abort(s, PickFinal(r.lan.err, Some(fault))) else s
  }

  function HearsLan(r: Round): Round {
    if !r.phase.Racing? || r.lan.ch.None? then r
    else
      var out := r.lan.ch.value;
      var s := Take(r, Lan, false);
      if out.Paired? then Win(s, Lan)
      else if out.fault.Canceled? then LoopEnd(s)
      else if out.fault.TooManyFailures? then Abort(s, out.fault)
      else if r.downErr.Some? then Abort(s, PickFinal(Some(out.fault), r.downErr))
      else LoopEnd(s)
  }

  function HearsServer(r: Round): Round {
    if !r.phase.Racing? || r.server.ch.None? then r
    else
      var out := r.server.ch.value;
      var s := Take(r, Server, false);
      if out.Paired? then Win(s, Server)
      else if out.fault.Canceled? then LoopEnd(s)
      else if out.fault.PairedGone? || out.fault.TooManyFailures? then Abort(s, out.fault)
      else LoopEnd(s.(downErr := Some(out.fault)))
  }

  function DrainsLan(r: Round): Round {
    if !r.phase.Draining? || !r.phase.lan || r.lan.ch.None? then r
    else Take(r, Lan, true).(phase := Drained(false, r.phase.server, r.phase.fault))
  }

  function DrainsServer(r: Round): Round {
    if !r.phase.Draining? || r.phase.lan || !r.phase.server || r.server.ch.None? then r
    else Take(r, Server, true).(phase := Drained(false, false, r.phase.fault))
  }

  function DrainsLoser(r: Round): Round {
    if r.loser.None? || At(r, r.loser.value).ch.None? then r else Take(r, r.loser.value, true).(loser := None)
  }

  /** The transfer is over, and cleans up the pairing it ran on. */
  function Ends(r: Round): Round {
    if !r.phase.Transferring? then r
    else
      var w := r.phase.winner;
      var s := Put(r, w, At(r, w).(cleaned := At(r, w).cleaned + 1)).(phase := Closing(w));
      if w.Server? then EndSession(s, r) else s
  }

  function Next(r: Round, step: Step): Round {
    match step
    case Finish(side, outcome) => Finishes(r, side, outcome)
    case Create => if r.server.worker.Running? then r.(open := true) else r
    case Lose => if r.server.worker.Running? then r.(open := false) else r
    case NoticeDown(fault) =>
      if r.server.worker.Running? && !r.lan.worker.Off? && r.downCh.None? then r.(downCh := Some(fault)) else r
    case Stop(fault) => if r.phase.Racing? then Abort(r, fault) else r
    case TakeDown => HearsDown(r)
    case TakeLan => HearsLan(r)
    case TakeServer => HearsServer(r)
    case DrainLan => DrainsLan(r)
    case DrainServer => DrainsServer(r)
    case DrainLoser => DrainsLoser(r)
    case EndTransfer => Ends(r)
    case Return => if r.phase.Closing? && r.loser.None? then r.(phase := Returned(Sent(r.phase.winner))) else r
  }

  function Run(start: Round, steps: seq<Step>): Round {
    if steps == [] then start else Next(Run(start, steps[..|steps| - 1]), steps[|steps| - 1])
  }

  // ---- the invariant ----

  predicate IsWinner(r: Round, side: Side) {
    (r.phase.Transferring? || r.phase.Closing?) && r.phase.winner == side
  }

  /** The winner's pairing until the transfer has cleaned it up. */
  predicate InUse(r: Round, side: Side) {
    r.phase.Transferring? && r.phase.winner == side
  }

  function Waiting(p: Path): nat {
    if p.ch == Some(Paired) then 1 else 0
  }

  /** A channel holds an outcome or gave it out, once, if its goroutine ran; each pairing is waiting, in use or cleaned up. */
  predicate PathSound(r: Round, side: Side) {
    var p := At(r, side);
    && (!p.worker.Over? ==> p.ch.None? && p.taken == 0 && p.made == 0)
    && (p.worker.Over? ==> p.taken + (if p.ch.Some? then 1 else 0) == 1)
    && p.made == p.cleaned + Waiting(p) + (if InUse(r, side) then 1 else 0)
    && p.made <= 1
    && (p.done <==> p.worker.Off? || p.taken == 1)
    && (p.err.Some? ==> p.taken == 1 && p.made == 0)
    && (p.taken == 0 ==> p.cleaned == 0)
  }

  /** Whoever will still receive from a channel waits for a goroutine that was started and not yet heard. */
  predicate PhaseSound(r: Round) {
    match r.phase
    case Racing =>
      && !(r.lan.done && r.server.done) && r.loser.None? && !r.paired && !r.cancelled
      && (r.lan.taken == 1 ==> r.lan.err.Some?) && (r.server.taken == 1 ==> r.server.err.Some?)
    case Draining(lan, server, _) =>
      && (lan || server) && lan == !r.lan.done && server == !r.server.done && r.loser.None? && r.cancelled && !r.paired
    case Transferring(w) => WonSound(r, w)
    case Closing(w) => WonSound(r, w)
    case Returned(Sent(w)) => WonSound(r, w) && r.loser.None?
    case Returned(Gave(_)) => r.lan.done && r.server.done && r.loser.None? && !r.paired
  }

  predicate WonSound(r: Round, w: Side) {
    && r.paired && r.cancelled && At(r, w).made == 1 && At(r, w).done
    && r.loser == (if At(r, Other(w)).done then None else Some(Other(w)))
  }

  /** The server path failed on a spent budget: its session stays, for the receiver to learn why. */
  predicate LeftForReceiver(p: Path) {
    p.worker.Over? && p.made == 0 && (p.ch == Some(Failed(BudgetSpent)) || p.err == Some(BudgetSpent))
  }

  /** Once a winner is picked on the code, the server session is only ever ended as consumed; before, and on a resume key, never. */
  predicate CodeSound(r: Round) {
    && (!r.paired ==> !r.failedFirst)
    && (r.server.made > 0 && r.server.cleaned == 0 ==> r.ended.None? && r.open)
    && (r.ended.Some? ==> !r.open)
    && (r.open ==> r.server.worker.Running? || (r.server.made > 0 && r.server.cleaned == 0) || LeftForReceiver(r.server))
    && (r.server.worker.Running? ==> r.ended.None?)
    && (r.paired && !r.failedFirst && r.ended.Some? ==> r.ended == Some(!r.resume))
    && (!r.paired || r.resume ==> r.ended != Some(true))
    && (r.server.cleaned > 0 ==> r.ended.Some?)
    && (!r.paired && r.ended.Some? && r.server.made == 0 ==> r.server.err.Some? || (r.server.ch.Some? && r.server.ch.value.Failed?))
  }

  predicate Inv(r: Round) {
    PathSound(r, Lan) && PathSound(r, Server) && PhaseSound(r) && CodeSound(r)
  }

  lemma StartHolds(lanOff: bool, serverOff: bool, resume: bool)
    requires !(lanOff && serverOff)
    ensures Inv(Start(lanOff, serverOff, resume))
  {
  }

  function WorkerRank(t: Worker): nat {
    if t.Running? then 1 else 0
  }

  function PhaseRank(p: Phase): nat {
    match p
    case Racing => 5
    case Draining(lan, server, _) => (if lan then 1 else 0) + (if server then 1 else 0)
    case Transferring(_) => 2
    case Closing(_) => 1
    case Returned(_) => 0
  }

  /** How much is left to happen, server-down notices and session re-creations aside. */
  function Rank(r: Round): nat {
    WorkerRank(r.lan.worker) + WorkerRank(r.server.worker) + PhaseRank(r.phase) + (if r.loser.Some? then 1 else 0)
    + (if r.lan.done then 0 else 1) + (if r.server.done then 0 else 1)
  }

  /** A step keeps the invariant; and unless it only hears a notice, it changes nothing or leaves less to happen. */
  predicate Fine(r: Round, next: Round) {
    Inv(next) && next.resume == r.resume && (next == r || Rank(next) < Rank(r))
  }

  lemma FinishCode(r: Round, side: Side, outcome: Outcome)
    requires Inv(r)
    ensures CodeSound(Finishes(r, side, outcome))
  {
    hide PickFinal;
  }

  lemma FinishFine(r: Round, side: Side, outcome: Outcome)
    requires Inv(r)
    ensures Fine(r, Finishes(r, side, outcome))
  {
    FinishCode(r, side, outcome);
    FinishSound(r, side, outcome);
    hide PickFinal, CodeSound, PathSound, PhaseSound;
  }

  lemma FinishSound(r: Round, side: Side, outcome: Outcome)
    requires Inv(r)
    ensures var next := Finishes(r, side, outcome);
            PathSound(next, Lan) && PathSound(next, Server) && PhaseSound(next)
  {
    hide PickFinal, CodeSound;
  }

  lemma DownKept(r: Round)
    requires Inv(r)
    ensures Inv(HearsDown(r)) && HearsDown(r).resume == r.resume && Rank(HearsDown(r)) <= Rank(r)
  {
    hide PickFinal;
  }

  lemma LanCode(r: Round)
    requires Inv(r)
    ensures CodeSound(HearsLan(r))
  {
    hide PickFinal;
  }

  lemma LanSound(r: Round)
    requires Inv(r)
    ensures PathSound(HearsLan(r), Lan) && PathSound(HearsLan(r), Server) && PhaseSound(HearsLan(r))
  {
    LanPaths(r);
    hide PickFinal, CodeSound;
  }

  lemma LanPaths(r: Round)
    requires Inv(r)
    ensures PathSound(HearsLan(r), Lan) && PathSound(HearsLan(r), Server)
  {
    hide PickFinal, CodeSound;
  }

  lemma LanRank(r: Round)
    requires Inv(r)
    ensures HearsLan(r) == r || Rank(HearsLan(r)) < Rank(r)
  {
    hide PickFinal, CodeSound;
  }

  lemma LanFine(r: Round)
    requires Inv(r)
    ensures Fine(r, HearsLan(r))
  {
    LanCode(r);
    LanSound(r);
    LanRank(r);
    hide PickFinal, PathSound, PhaseSound, CodeSound, Rank;
  }

  lemma ServerFine(r: Round)
    requires Inv(r)
    ensures Fine(r, HearsServer(r))
  {
    hide PickFinal;
  }

  lemma DrainLanFine(r: Round)
    requires Inv(r)
    ensures Fine(r, DrainsLan(r))
  {
    hide PickFinal;
  }

  lemma DrainServerFine(r: Round)
    requires Inv(r)
    ensures Fine(r, DrainsServer(r))
  {
    hide PickFinal;
  }

  lemma DrainLoserFine(r: Round)
    requires Inv(r)
    ensures Fine(r, DrainsLoser(r))
  {
    hide PickFinal;
  }

  lemma EndFine(r: Round)
    requires Inv(r)
    ensures Fine(r, Ends(r))
  {
    hide PickFinal;
  }

  /** Steps a server that comes and goes can repeat. */
  predicate Background(step: Step) {
    step.Create? || step.Lose? || step.NoticeDown? || step.TakeDown?
  }

  lemma StopFine(r: Round, fault: Fault)
    requires Inv(r)
    ensures Fine(r, Next(r, Stop(fault)))
  {
  }

  lemma ReturnFine(r: Round)
    requires Inv(r)
    ensures Fine(r, Next(r, Return))
  {
  }

  lemma BackgroundKept(r: Round, step: Step)
    requires Inv(r) && (step.Create? || step.Lose? || step.NoticeDown?)
    ensures Inv(Next(r, step)) && Next(r, step).resume == r.resume && Rank(Next(r, step)) == Rank(r)
  {
  }

  lemma StepKeeps(r: Round, step: Step)
    requires Inv(r)
    ensures Inv(Next(r, step)) && Next(r, step).resume == r.resume
    ensures Rank(Next(r, step)) <= Rank(r)
    ensures !Background(step) ==> Fine(r, Next(r, step))
  {
    hide Inv, Rank, Finishes, HearsDown, HearsLan, HearsServer, DrainsLan, DrainsServer, DrainsLoser, Ends, Abort;
    match step
    case Finish(side, outcome) => FinishFine(r, side, outcome);
    case TakeDown => DownKept(r);
    case TakeLan => LanFine(r);
    case TakeServer => ServerFine(r);
    case DrainLan => DrainLanFine(r);
    case DrainServer => DrainServerFine(r);
    case DrainLoser => DrainLoserFine(r);
    case EndTransfer => EndFine(r);
    case Stop(fault) => StopFine(r, fault);
    case Return => ReturnFine(r);
    case _ => BackgroundKept(r, step);
  }

  lemma {:induction false} RunKeeps(lanOff: bool, serverOff: bool, resume: bool, steps: seq<Step>)
    requires !(lanOff && serverOff)
    ensures Inv(Run(Start(lanOff, serverOff, resume), steps)) && Run(Start(lanOff, serverOff, resume), steps).resume == resume
  {
    hide Inv, Next;
    if steps == [] {
      StartHolds(lanOff, serverOff, resume);
    } else {
      RunKeeps(lanOff, serverOff, resume, steps[..|steps| - 1]);
      StepKeeps(Run(Start(lanOff, serverOff, resume), steps[..|steps| - 1]), steps[|steps| - 1]);
    }
  }

  // ---- what follows for every interleaving ----

  /**
   * When the round has returned, each goroutine that ran was heard exactly
   * once and the others never, and every pairing was cleaned up exactly once:
   * the winner's by its transfer, any other when it was drained.
   */
  lemma EverythingSettled(lanOff: bool, serverOff: bool, resume: bool, steps: seq<Step>, side: Side)
    requires !(lanOff && serverOff)
    requires Run(Start(lanOff, serverOff, resume), steps).phase.Returned?
    ensures var p := At(Run(Start(lanOff, serverOff, resume), steps), side);
            && p.ch.None? && p.cleaned == p.made <= 1
            && (if p.worker.Off? then p.taken == 0 && p.made == 0 else p.worker.Over? && p.taken == 1)
  {
    hide Run, CodeSound;
    RunKeeps(lanOff, serverOff, resume, steps);
  }

  /** At most one winner, which is a pairing that was made; the round returns success exactly when it picked one. */
  lemma OneWinner(lanOff: bool, serverOff: bool, resume: bool, steps: seq<Step>)
    requires !(lanOff && serverOff)
    requires Run(Start(lanOff, serverOff, resume), steps).phase.Returned?
    ensures var r := Run(Start(lanOff, serverOff, resume), steps);
            && (r.phase.ending.Sent? <==> r.paired)
            && (r.phase.ending.Sent? ==> At(r, r.phase.ending.side).made == 1)
  {
    hide Run, CodeSound;
    RunKeeps(lanOff, serverOff, resume, steps);
  }

  /** The steps the coordinator and its teardown take by themselves. */
  predicate Enabled(r: Round, step: Step) {
    match step
    case TakeLan => r.phase.Racing? && r.lan.ch.Some?
    case TakeServer => r.phase.Racing? && r.server.ch.Some?
    case DrainLan => r.phase.Draining? && r.phase.lan && r.lan.ch.Some?
    case DrainServer => r.phase.Draining? && !r.phase.lan && r.phase.server && r.server.ch.Some?
    case DrainLoser => r.loser.Some? && At(r, r.loser.value).ch.Some?
    case EndTransfer => r.phase.Transferring?
    case Return => r.phase.Closing? && r.loser.None?
    case _ => false
  }

  /** No deadlock: until it returns, the round either has a goroutine still running or can go on without one. */
  lemma NeverStuck(lanOff: bool, serverOff: bool, resume: bool, steps: seq<Step>)
    requires !(lanOff && serverOff)
    ensures var r := Run(Start(lanOff, serverOff, resume), steps);
            r.phase.Returned? || r.lan.worker.Running? || r.server.worker.Running? || exists step :: Enabled(r, step)
  {
    hide Run, CodeSound;
    RunKeeps(lanOff, serverOff, resume, steps);
    var r := Run(Start(lanOff, serverOff, resume), steps);
    var step := match r.phase
      case Racing => if r.lan.ch.Some? then TakeLan else TakeServer
      case Draining(lan, _, _) => if lan then DrainLan else DrainServer
      case Transferring(_) => EndTransfer
      case Closing(_) => if r.loser.None? then Return else DrainLoser
      case Returned(_) => Return;
    assert r.phase.Returned? || r.lan.worker.Running? || r.server.worker.Running? || Enabled(r, step);
  }

  /** A goroutine the round still waits for after its decision has been told to stop. */
  lemma AwaitedAreCancelled(lanOff: bool, serverOff: bool, resume: bool, steps: seq<Step>)
    requires !(lanOff && serverOff)
    ensures var r := Run(Start(lanOff, serverOff, resume), steps);
            !r.phase.Racing? && (r.lan.worker.Running? || r.server.worker.Running?) ==> r.cancelled && !r.phase.Returned?
  {
    hide Run, CodeSound;
    RunKeeps(lanOff, serverOff, resume, steps);
  }

  /** How many steps of a run changed anything, server-down notices and session re-creations aside. */
  function Effective(start: Round, steps: seq<Step>): nat {
    if steps == [] then 0
    else
      var before, last := Run(start, steps[..|steps| - 1]), steps[|steps| - 1];
      Effective(start, steps[..|steps| - 1])
      + if Next(before, last) == before || Background(last) then 0 else 1
  }

  lemma {:induction false} WorkIsBounded(lanOff: bool, serverOff: bool, resume: bool, steps: seq<Step>)
    requires !(lanOff && serverOff)
    ensures var start := Start(lanOff, serverOff, resume);
            Effective(start, steps) + Rank(Run(start, steps)) <= Rank(start)
  {
    if steps != [] {
      hide Next, Inv, Rank;
      var start, front := Start(lanOff, serverOff, resume), steps[..|steps| - 1];
      WorkIsBounded(lanOff, serverOff, resume, front);
      RunKeeps(lanOff, serverOff, resume, front);
      StepKeeps(Run(start, front), steps[|steps| - 1]);
    }
  }

  /** Server-down notices and session re-creations aside, at most nine things happen in any round. */
  lemma RoundEnds(lanOff: bool, serverOff: bool, resume: bool, steps: seq<Step>)
    requires !(lanOff && serverOff)
    ensures Effective(Start(lanOff, serverOff, resume), steps) <= 9
  {
    hide Effective, Run;
    WorkIsBounded(lanOff, serverOff, resume, steps);
  }

  /**
   * In a round on the code that picked a winner, the server session still open
   * at that moment ends consumed, not deleted; a round without a winner, or on
   * a resume key, never consumes the code; and no round leaves a session behind
   * but the one whose relay budget is spent.
   */
  lemma CodeIsSpent(lanOff: bool, serverOff: bool, resume: bool, steps: seq<Step>)
    requires !(lanOff && serverOff)
    ensures var r := Run(Start(lanOff, serverOff, resume), steps);
            && (r.paired && !r.failedFirst && r.ended.Some? ==> r.ended.value == !resume)
            && (!r.paired || resume ==> r.ended != Some(true))
            && (r.phase.Returned? && r.server.made == 1 ==> r.ended.Some?)
            && (r.phase.Returned? && r.open ==> r.server.err == Some(BudgetSpent))
  {
    hide Run, Next;
    RunKeeps(lanOff, serverOff, resume, steps);
  }
}
