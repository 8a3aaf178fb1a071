/** From the planned listing to the data phase: which files are asked for, and where each lands. */
module Landing {
  import opened Basics
  import opened Verdicts
  import opened FileHash
  import opened Send
  import opened Receive
  import opened Delivery
  import C = Classify
  import K = KeepBoth
  import RenameAside
  import Transfer

  /** The partial kept for an entry under a path; empty when there is none. */
  type Partials = (C.Path, C.Listed) -> seq<byte>

  function DataEntry(i: nat, e: C.Listed): Entry {
    Entry(i, e.size, e.kind.FileEntry?)
  }

  /** A file can be resumed exactly when its partial holds a whole block below its size. */
  ghost predicate PartialsKnown(site: C.Site, partials: Partials) {
    forall path, e: C.Listed {:trigger site.resumable(path, e)} ::
      site.resumable(path, e) <==> e.kind.FileEntry? && ResumeOffset(e.size, |partials(path, e)|) > 0
  }

  /** A classified plan as the data phase sees it. */
  function DataPlan(i: nat, p: C.Plan, partials: Partials): FilePlan {
    if p.disp == Resume then ResumeCandidate(DataEntry(i, p.entry), partials(p.rel, p.entry)).(blockedAncestor := p.blockedAncestor)
    else FilePlan(DataEntry(i, p.entry), p.disp, 0, [], [], p.blockedAncestor)
  }

  function DataPlans(plans: seq<C.Plan>, partials: Partials): (data: seq<FilePlan>)
    ensures |data| == |plans|
    ensures forall i :: 0 <= i < |plans| ==> data[i] == DataPlan(i, plans[i], partials)
  {
    seq(|plans|, i requires 0 <= i < |plans| => DataPlan(i, plans[i], partials))
  }

  // ---- what the folder, the listing and the user's answer come to ----

  /** The entry has a place of its own here, and not behind a symlink. */
  ghost predicate Placeable(site: C.Site, entries: seq<C.Listed>, i: nat)
    requires i < |entries|
  {
    && (entries[i].path != [] ==> !site.reserved(entries[i].path[0])) && !C.Collides(site, entries, i)
    && forall n :: 0 < n < |entries[i].path| ==> !C.LinkAt(site, entries[i].path[..n])
  }

  /** The file is there already: a plain file of its size, with its time, or under --checksum with its contents. */
  predicate ThereAlready(site: C.Site, e: C.Listed, sameContents: bool) {
    C.SizeAgrees(site, e) && if site.checksum then sameContents else C.TimeAgrees(site, e)
  }

  /** What the answer lets happen to a file that is not there already. */
  predicate Lets(site: C.Site, e: C.Listed, policy: RenameAside.Policy) {
    match policy
    case Rename => true
    case Keep => !C.Exists(site, e.path) && (site.resumable(e.path, e) || !C.NoFolderAbove(site, e.path))
    case Replace => !(C.FolderAt(site, e.path) && !site.disk[C.Keys(site.key, e.path)].empty)
  }

  ghost predicate WouldLand(site: C.Site, entries: seq<C.Listed>, same: nat -> bool, policy: RenameAside.Policy, i: nat) {
    && i < |entries| && entries[i].kind.FileEntry? && entries[i].size > 0 && Placeable(site, entries, i)
    && !ThereAlready(site, entries[i], same(i)) && Lets(site, entries[i], policy)
  }

  /** What planning gives one entry: its plan, once contents are checked, and what the policy made of it. */
  lemma OnePlan(site: C.Site, entries: seq<C.Listed>, same: nat -> bool, policy: RenameAside.Policy, now: seq<C.Plan>, i: nat)
    returns (first: C.Plan, settled: C.Plan)
    requires RenameAside.PlannedUnder(site, entries, same, policy, now) && i < |entries|
    ensures |now| == |entries| && entries[i].kind != C.SymlinkEntry
    ensures C.PlannedAt(site, entries, first, i)
    ensures settled == if first.disp == Verify then first.(disp := if same(i) then Identical else Differs) else first
    ensures ChangedTo(site, policy, settled, now[i])
  {
    hide C.PlannedAt, RenameAside.MovedFrom, RenameAside.Followed, RenameAside.UnderRenamed, RenameAside.Acts, C.NeedsConsent, C.Keys;
    var firsts: seq<C.Plan> :|
      && |firsts| == |entries|
      && (forall i :: 0 <= i < |entries| ==> entries[i].kind != C.SymlinkEntry && C.PlannedAt(site, entries, firsts[i], i))
      && RenameAside.PolicyApplied(site, policy, RenameAside.Verified(firsts, same), now);
    first, settled := firsts[i], RenameAside.Verified(firsts, same)[i];
  }

  ghost predicate ChangedTo(site: C.Site, policy: RenameAside.Policy, settled: C.Plan, now: C.Plan) {
    match policy
    case Keep => now == settled
    case Replace => now == if C.NeedsConsent(settled) && settled.nonEmptyDir then settled.(disp := Refused) else settled
    case Rename =>
      && (now.renamed ==> RenameAside.MovedFrom(site, settled, now) && !C.Exists(site, now.rel))
      && (!now.renamed ==> now == settled)
      && (RenameAside.Acts(now) ==> !C.NeedsConsent(now))
      && (now.renamed ==> RenameAside.Acts(settled) && (C.NeedsConsent(settled) || !C.Exists(site, settled.rel)))
  }

  /** Nothing is left to check, and what is to be resumed can be. */
  lemma PlanIsReady(site: C.Site, entries: seq<C.Listed>, same: nat -> bool, policy: RenameAside.Policy, now: seq<C.Plan>, i: nat)
    requires RenameAside.PlannedUnder(site, entries, same, policy, now) && i < |entries|
    ensures |now| == |entries| && now[i].entry == entries[i] && now[i].disp != Verify
    ensures now[i].disp == Resume ==> site.resumable(now[i].rel, now[i].entry)
  {
    hide RenameAside.PlannedUnder, C.Keys, C.Collides;
    var _, _ := OnePlan(site, entries, same, policy, now, i);
  }

  /** The data phase accepts these plans, and sees the verdicts of the listing. */
  lemma DataPlansValid(site: C.Site, entries: seq<C.Listed>, same: nat -> bool, policy: RenameAside.Policy, now: seq<C.Plan>,
                       partials: Partials)
    requires RenameAside.PlannedUnder(site, entries, same, policy, now) && PartialsKnown(site, partials)
    ensures |now| == |entries| && PlansValid(DataPlans(now, partials))
    ensures forall i :: 0 <= i < |entries| ==>
              DataPlans(now, partials)[i].entry == DataEntry(i, entries[i]) && DataPlans(now, partials)[i].disp == now[i].disp
  {
    hide RenameAside.PlannedUnder, BlockHashes, ResumeOffset;
    SameNumber(site, entries, same, policy, now);
    forall i | 0 <= i < |entries|
      ensures DataPlan(i, now[i], partials).entry == DataEntry(i, entries[i]) && DataPlan(i, now[i], partials).disp == now[i].disp
      ensures PlanValid(DataPlan(i, now[i], partials))
    {
      PlanIsReady(site, entries, same, policy, now, i);
      if now[i].disp == Resume {
        ResumeCandidateValid(DataEntry(i, entries[i]), partials(now[i].rel, now[i].entry));
      }
    }
  }

  lemma SameNumber(site: C.Site, entries: seq<C.Listed>, same: nat -> bool, policy: RenameAside.Policy, now: seq<C.Plan>)
    requires RenameAside.PlannedUnder(site, entries, same, policy, now)
    ensures |now| == |entries|
  {
  }

  /** The verdict once contents are checked. */
  lemma SettledVerdict(site: C.Site, entries: seq<C.Listed>, same: bool, i: nat, first: C.Plan, settled: C.Plan)
    requires i < |entries| && entries[i].kind.FileEntry? && C.PlannedAt(site, entries, first, i)
    requires settled == if first.disp == Verify then first.(disp := if same then Identical else Differs) else first
    ensures RenameAside.Acts(settled) <==> Placeable(site, entries, i)
    ensures RenameAside.Acts(settled) ==> (settled.disp == Identical <==> ThereAlready(site, entries[i], same))
    ensures RenameAside.Acts(settled) ==>
              (C.NeedsConsent(settled) || settled.disp == Identical <==> !Lets(site, entries[i], RenameAside.Keep))
    ensures RenameAside.Acts(settled) && settled.nonEmptyDir ==> C.NeedsConsent(settled)
    ensures RenameAside.Acts(settled) ==> (settled.nonEmptyDir <==> !Lets(site, entries[i], RenameAside.Replace))
    ensures settled.entry == entries[i] && settled.rel == entries[i].path && !settled.renamed
  {
    hide C.Keys, C.Collides, C.AncestorBlocked, C.ClassifyOne, C.NoFolderAbove;
    if first.disp != Refused {
      C.ReachExactly(site, entries, first, i);
      C.VerdictExactly(site, entries, first, i, first.disp);
      C.VerdictExactly(site, entries, first, i, Identical);
      C.VerdictExactly(site, entries, first, i, Verify);
    }
  }

  /**
   * Told by the folder, the listing and the answer alone: a file is asked for
   * exactly when it has bytes and a place, is not there already, and the
   * answer lets it land.
   */
  lemma AskedForExactly(site: C.Site, entries: seq<C.Listed>, same: nat -> bool, policy: RenameAside.Policy, now: seq<C.Plan>,
                        partials: Partials, i: nat)
    requires RenameAside.PlannedUnder(site, entries, same, policy, now) && PartialsKnown(site, partials)
    ensures |now| == |entries|
    ensures Lands(DataPlans(now, partials), policy.Replace?, i) <==> WouldLand(site, entries, same, policy, i)
  {
    hide RenameAside.PlannedUnder, C.PlannedAt, BlockHashes, C.Keys, C.Collides, C.NoFolderAbove;
    DataPlansValid(site, entries, same, policy, now, partials);
    if i < |entries| && entries[i].kind.FileEntry? {
      var first, settled := OnePlan(site, entries, same, policy, now, i);
      SettledVerdict(site, entries, same(i), i, first, settled);
      hide Placeable, ThereAlready;
    }
  }

  /** Under keep and keep-both a file lands only where nothing was. */
  lemma LandsInEmptySlot(site: C.Site, entries: seq<C.Listed>, same: nat -> bool, policy: RenameAside.Policy, now: seq<C.Plan>,
                         partials: Partials, i: nat)
    requires RenameAside.PlannedUnder(site, entries, same, policy, now) && PartialsKnown(site, partials)
    requires !policy.Replace? && i < |entries| && WouldLand(site, entries, same, policy, i)
    ensures |now| == |entries| && !C.Exists(site, now[i].rel)
  {
    hide RenameAside.PlannedUnder, C.PlannedAt, C.Keys, C.Collides, C.NoFolderAbove;
    var first, settled := OnePlan(site, entries, same, policy, now, i);
    SettledVerdict(site, entries, same(i), i, first, settled);
    if policy.Rename? && !now[i].renamed {
      assert settled.disp != Identical && !C.NeedsConsent(settled);
      NothingThere(site, entries, i, first, settled);
    }
  }

  lemma NothingThere(site: C.Site, entries: seq<C.Listed>, i: nat, first: C.Plan, settled: C.Plan)
    requires i < |entries| && entries[i].kind.FileEntry? && C.PlannedAt(site, entries, first, i) && RenameAside.SettledFrom(first, settled)
    requires settled.disp != Identical && settled.disp != Refused && settled.disp != Verify && !C.NeedsConsent(settled)
    ensures !C.Exists(site, entries[i].path)
  {
    hide C.Keys, C.Collides, C.AncestorBlocked, C.ClassifyOne, C.NoFolderAbove;
    C.VerdictExactly(site, entries, first, i, first.disp);
  }

  /** Whatever is not refused has a place of its own, under every policy. */
  lemma PlacesApart(site: C.Site, entries: seq<C.Listed>, same: nat -> bool, policy: RenameAside.Policy, now: seq<C.Plan>, i: nat, j: nat)
    requires RenameAside.PlannedUnder(site, entries, same, policy, now) && i < j < |entries|
    ensures |now| == |entries|
    ensures now[i].disp != Refused && now[j].disp != Refused ==> C.Keys(site.key, now[i].rel) != C.Keys(site.key, now[j].rel)
  {
    hide C.Keys, C.ClassifyOne, RenameAside.Followed, RenameAside.UnderRenamed;
    var first: seq<C.Plan> :|
      && |first| == |entries|
      && (forall k :: 0 <= k < |entries| ==> entries[k].kind != C.SymlinkEntry && C.PlannedAt(site, entries, first[k], k))
      && RenameAside.PolicyApplied(site, policy, RenameAside.Verified(first, same), now);
    var settled := RenameAside.Verified(first, same);
    assert RenameAside.SettledFrom(first[i], settled[i]) && RenameAside.SettledFrom(first[j], settled[j]);
    if first[j].disp != Refused {
      C.PlansDistinct(site, entries, first, i, j);
    }
  }

  /**
   * What a receive leaves, told by the folder, the listing, the answer and the
   * sources: exactly the files that would land and can be read, with their
   * bytes, each in a place of its own, and under keep and keep-both where
   * nothing was.
   */
  ghost predicate ReceivedExactly(site: C.Site, entries: seq<C.Listed>, same: nat -> bool, policy: RenameAside.Policy, partials: Partials,
                                  sources: seq<Source>, now: seq<C.Plan>, committed: map<nat, seq<byte>>, skipped: set<nat>)
    requires |sources| == |entries| == |now|
  {
    && RenameAside.PlannedUnder(site, entries, same, policy, now)
    && (forall i: nat :: i in committed <==>
          WouldLand(site, entries, same, policy, i) && ReadsThrough(sources[i], DataPlans(now, partials)[i]))
    && (forall i: nat :: i in skipped <==>
          WouldLand(site, entries, same, policy, i) && !ReadsThrough(sources[i], DataPlans(now, partials)[i]))
    && (forall i: nat :: i in committed ==> committed[i] == sources[i].content[..sources[i].entry.size])
    && (forall i: nat, j: nat :: i in committed && j in committed && i != j ==>
          C.Keys(site.key, now[i].rel) != C.Keys(site.key, now[j].rel))
    && (forall i: nat :: i in committed && !policy.Replace? ==> !C.Exists(site, now[i].rel))
  }

  lemma LandsNotRefused(plans: seq<FilePlan>, approve: bool, i: nat)
    requires Lands(plans, approve, i)
    ensures i < |plans| && plans[i].disp != Refused
  {
  }

  lemma ReceivedAsPlanned(site: C.Site, entries: seq<C.Listed>, same: nat -> bool, policy: RenameAside.Policy, partials: Partials,
                          sources: seq<Source>, now: seq<C.Plan>, committed: map<nat, seq<byte>>, skipped: set<nat>)
    requires RenameAside.PlannedUnder(site, entries, same, policy, now) && PartialsKnown(site, partials) && |sources| == |entries| == |now|
    requires LandsExactly(sources, DataPlans(now, partials), policy.Replace?, committed, skipped)
    ensures ReceivedExactly(site, entries, same, policy, partials, sources, now, committed, skipped)
  {
    hide RenameAside.PlannedUnder, C.Keys, Lands, WouldLand, ReadsThrough, DataPlan;
    DataPlansValid(site, entries, same, policy, now, partials);
    forall i: nat
      ensures Lands(DataPlans(now, partials), policy.Replace?, i) <==> WouldLand(site, entries, same, policy, i)
    {
      AskedForExactly(site, entries, same, policy, now, partials, i);
    }
    forall i: nat | i in committed
      ensures i < |now| && now[i].disp != Refused
      ensures !policy.Replace? ==> !C.Exists(site, now[i].rel)
    {
      LandsNotRefused(DataPlans(now, partials), policy.Replace?, i);
      if !policy.Replace? {
        LandsInEmptySlot(site, entries, same, policy, now, partials, i);
      }
    }
    forall i: nat, j: nat | i in committed && j in committed && i != j
      ensures C.Keys(site.key, now[i].rel) != C.Keys(site.key, now[j].rel)
    {
      if i < j {
        PlacesApart(site, entries, same, policy, now, i, j);
      } else {
        PlacesApart(site, entries, same, policy, now, j, i);
      }
    }
  }

  /** A whole receive: the listing planned, the answer applied, then its data. */
  method ReceiveListing(site: C.Site, entries: seq<C.Listed>, same: nat -> bool, policy: RenameAside.Policy, partials: Partials,
                        sources: seq<Source>, zsize: seq<byte> -> nat)
    returns (r: Result<(), C.PlanError>, ghost now: seq<C.Plan>, committed: map<nat, seq<byte>>, skipped: set<nat>)
    requires PartialsKnown(site, partials)
    requires policy.Rename? ==> C.ParentsFirst(entries) && C.DiskIsTree(site.disk) && K.NumbersApart(site.key)
    requires |sources| == |entries| && forall i :: 0 <= i < |entries| ==> sources[i].entry == DataEntry(i, entries[i])
    ensures r.Ok? <==> C.Plannable(entries)
    ensures r.Ok? ==> |now| == |entries| && ReceivedExactly(site, entries, same, policy, partials, sources, now, committed, skipped)
  {
    hide RenameAside.PlannedUnder, C.DiskIsTree, K.NumbersApart, PartialsKnown, Delivered, LandsExactly, ReceivedExactly;
    now, committed, skipped := [], map[], {};
    var plans := RenameAside.PlanListing(site, entries, same, policy);
    if plans.Err? {
      return Err(plans.error), now, committed, skipped;
    }
    var planned := plans.value[..];
    now := planned;
    DataPlansValid(site, entries, same, policy, now, partials);
    var _, receiver, _, _ := Transfer.Transfer(sources, DataPlans(planned, partials), policy.Replace?, zsize);
    committed, skipped := receiver.committed, receiver.skipped;
    ReceivedAsPlanned(site, entries, same, policy, partials, sources, now, committed, skipped);
    r := Ok(());
  }
}
