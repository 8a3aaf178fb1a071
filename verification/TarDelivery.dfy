/** Sender and archive together: what the archive holds is what the sources held. */
module TarDelivery {
  import opened Basics
  import opened Wire
  import opened FileHash
  import opened Frames
  import opened Send
  import Tar
  import Transfer

  /** The archive's listing is the sender's, entry by entry. */
  predicate SameListing(sources: seq<Source>, entries: seq<Tar.Entry>) {
    && |sources| == |entries|
    && forall i :: 0 <= i < |sources| ==>
         && sources[i].entry.index == i == entries[i].index && sources[i].entry.size == entries[i].size
         && (sources[i].entry.isFile <==> entries[i].kind.File?)
  }

  /** A pipe asks for everything, from the start. */
  function AllSent(n: nat): map<nat, Decision> {
    map i: nat | i < n :: Decision(i, SendIt, 0, NoRoot)
  }

  predicate HasBytes(src: Source) {
    src.entry.isFile && src.entry.size > 0
  }

  predicate Whole(src: Source) {
    src.opens && src.entry.size <= |src.content|
  }

  /** Some of the file is sent before a read fails. */
  predicate StopsMidFile(src: Source) {
    HasBytes(src) && src.opens && 0 < ReadUpTo(src, 0) < src.entry.size
  }

  // ---- the honest stream ----

  /** The stream of one file, read from the start. */
  lemma FileSays(src: Source, d: Decision)
    requires d.action == SendIt
    ensures FileScript(src, d) ==
            if src.opens then
              DataAtoms(src.entry.index, src.content[..ReadUpTo(src, 0)])
              + [if Whole(src) then Eof(src.entry.index, FileRoot(src.content[..src.entry.size]), src.changed) else Skip(src.entry.index)]
            else [Skip(src.entry.index)]
  {
    hide DataAtoms, FileRoot;
    if src.opens {
      var end := ReadUpTo(src, 0);
      assert src.content[0..end] == src.content[..end];
      assert [] + DataAtoms(src.entry.index, src.content[..end]) == DataAtoms(src.entry.index, src.content[..end]);
    }
  }

  /** The first entry not passed after k files: just behind the last file sent whole. */
  function NextAfter(sources: seq<Source>, k: nat): (next: nat)
    requires k <= |sources|
    ensures next <= k
  {
    if k == 0 then 0
    else if HasBytes(sources[k - 1]) && Whole(sources[k - 1]) then k
    else NextAfter(sources, k - 1)
  }

  function Remaining(entries: seq<Tar.Entry>, k: nat): set<nat> {
    set i | k <= i < |entries| && entries[i].kind.File? && entries[i].size > 0
  }

  function AfterFiles(sources: seq<Source>, entries: seq<Tar.Entry>, k: nat): Tar.Standing
    requires k <= |sources|
  {
    Tar.Standing(NextAfter(sources, k), Remaining(entries, k), -1, [])
  }

  /** One file's stream is refused exactly when it stops in mid-file. */
  lemma OneFile(sources: seq<Source>, entries: seq<Tar.Entry>, k: nat, d: Decision)
    requires SameListing(sources, entries) && k < |sources| && HasBytes(sources[k]) && d.action == SendIt
    ensures Tar.TarRun(entries, AfterFiles(sources, entries, k), FileScript(sources[k], d))
            == if StopsMidFile(sources[k]) then None else Some(AfterFiles(sources, entries, k + 1))
  {
    hide Tar.TarRun, FileScript, FileRoot, DataAtoms, ReadUpTo;
    var src, st := sources[k], AfterFiles(sources, entries, k);
    FileSays(src, d);
    assert Remaining(entries, k + 1) == Remaining(entries, k) - {k};
    assert Tar.Takes(entries, st, k);
    if !src.opens {
      Tar.TarRunOne(entries, st, Skip(k));
    } else {
      var end := ReadUpTo(src, 0);
      var said := DataAtoms(k, src.content[..end]);
      if Whole(src) {
        assert Tar.ContentOf(st) + src.content[..end] == src.content[..end];
        Tar.EndRuns(entries, st, k, src.content[..end], FileRoot(src.content[..end]), src.changed);
      } else {
        Tar.TarRunConcat(entries, st, said, [Skip(k)]);
        if end == 0 {
          Tar.TarRunNone(entries, st);
          assert said == [] by { assert |said| == 0; }
          Tar.TarRunOne(entries, st, Skip(k));
        } else {
          Tar.TarRunData(entries, st, k, src.content[..end]);
          Tar.TarRunOne(entries, Tar.Standing(k + 1, st.pending, k, Tar.ContentOf(st) + src.content[..end]), Skip(k));
        }
      }
    }
  }

  /** The honest stream of the first k files is accepted exactly when none of them stops in mid-file. */
  lemma {:induction false} FilesUpTo(sources: seq<Source>, entries: seq<Tar.Entry>, k: nat)
    requires SameListing(sources, entries) && k <= |sources|
    ensures Tar.TarRun(entries, Tar.Opening(entries), Script(sources[..k], AllSent(|sources|)))
            == if exists i :: 0 <= i < k && StopsMidFile(sources[i]) then None else Some(AfterFiles(sources, entries, k))
    decreases k
  {
    hide Tar.TarRun, FileScript, StopsMidFile;
    var decisions := AllSent(|sources|);
    if k == 0 {
      Tar.TarRunNone(entries, Tar.Opening(entries));
      assert Tar.Opening(entries) == AfterFiles(sources, entries, 0);
    } else {
      FilesUpTo(sources, entries, k - 1);
      var src := sources[k - 1];
      assert sources[..k][..k - 1] == sources[..k - 1] && sources[..k][k - 1] == src;
      if HasBytes(src) {
        Tar.TarRunConcat(entries, Tar.Opening(entries), Script(sources[..k - 1], decisions), FileScript(src, decisions[k - 1]));
        OneFile(sources, entries, k - 1, decisions[k - 1]);
      } else {
        NoBytesNoStop(src);
        assert Script(sources[..k], decisions) == Script(sources[..k - 1], decisions);
        assert Remaining(entries, k) == Remaining(entries, k - 1);
      }
    }
  }

  lemma NoBytesNoStop(src: Source)
    ensures StopsMidFile(src) ==> HasBytes(src)
  {
  }

  /** An honest sender's stream is accepted to its end exactly when no file becomes unreadable after its first bytes. */
  lemma HonestStreamCompletes(sources: seq<Source>, entries: seq<Tar.Entry>)
    requires SameListing(sources, entries)
    ensures Tar.Completes(entries, Script(sources, AllSent(|sources|)))
            <==> forall i :: 0 <= i < |sources| ==> !StopsMidFile(sources[i])
  {
    hide Tar.TarRun, Script, StopsMidFile;
    FilesUpTo(sources, entries, |sources|);
    assert sources[..|sources|] == sources;
    assert Remaining(entries, |sources|) == {};
  }

  // ---- what the archive holds ----

  /** An end the honest stream says of a file is that of the source's bytes, and a skip that of a file not read whole. */
  lemma {:induction false} EndsAreTrue(sources: seq<Source>, k: nat, a: Atom)
    requires (forall i :: 0 <= i < |sources| ==> sources[i].entry.index == i) && k <= |sources|
    requires a in Script(sources[..k], AllSent(|sources|)) && (a.Eof? || a.Skip?)
    ensures a.index < k
    ensures var src := sources[a.index];
            if a.Eof? then Whole(src) && a.root == FileRoot(src.content[..src.entry.size]) else !Whole(src)
    decreases k
  {
    hide FileScript, FileRoot, DataAtoms;
    var decisions := AllSent(|sources|);
    assert k > 0;
    var src := sources[k - 1];
    assert sources[..k][..k - 1] == sources[..k - 1] && sources[..k][k - 1] == src;
    if a in Script(sources[..k - 1], decisions) {
      EndsAreTrue(sources, k - 1, a);
    } else {
      FileSays(src, decisions[k - 1]);
      assert a in FileScript(src, decisions[k - 1]);
    }
  }

  lemma {:induction false} EndsAreNarrated(items: seq<Tar.Item>, i: nat)
    requires i < |items|
    ensures match items[i]
            case Delivered(pos, data, root, changed) => Eof(pos, root, changed) in Tar.Narrate(items)
            case Skipped(pos) => Skip(pos) in Tar.Narrate(items)
    decreases |items|
  {
    var n := |items| - 1;
    if i < n {
      EndsAreNarrated(items[..n], i);
    } else {
      var said := Tar.ItemAtoms(items[n]);
      assert Tar.Narrate(items)[|Tar.Narrate(items)| - 1] == said[|said| - 1];
    }
  }

  /** Every file the archive's stream settled holds the source's bytes, or was not readable to its end. */
  lemma {:induction false} ItemsAreTrue(sources: seq<Source>, entries: seq<Tar.Entry>, atoms: seq<Atom>, items: seq<Tar.Item>, i: nat)
    requires SameListing(sources, entries) && atoms <= Script(sources, AllSent(|sources|))
    requires atoms == Tar.Narrate(items) && Tar.Verified(entries, items) && i < |items|
    ensures var src := sources[items[i].pos];
            match items[i]
            case Delivered(_, data, _, _) => Whole(src) && data == src.content[..src.entry.size]
            case Skipped(_) => !Whole(src)
  {
    hide Tar.Narrate, Script, FileRoot;
    EndsAreNarrated(items, i);
    assert sources[..|sources|] == sources;
    match items[i]
    case Delivered(pos, data, root, changed) =>
      EndsAreTrue(sources, |sources|, Eof(pos, root, changed));
      RootsAgree(data, sources[pos].content[..sources[pos].entry.size]);
    case Skipped(pos) =>
      EndsAreTrue(sources, |sources|, Skip(pos));
  }

  lemma {:induction false} DeliveredMember(items: seq<Tar.Item>, m: Tar.Member) returns (i: nat)
    requires m in Tar.MembersOf(items)
    ensures i < |items| && items[i].Delivered? && items[i].pos == m.pos && items[i].data == m.data
    decreases |items|
  {
    var n := |items| - 1;
    if m in Tar.MembersOf(items[..n]) {
      i := DeliveredMember(items[..n], m);
    } else {
      i := n;
    }
  }

  lemma {:induction false} DataMemberListed(entries: seq<Tar.Entry>, archive: seq<Tar.Member>, i: nat)
    requires i < |archive| && Tar.IsData(entries, archive[i].pos)
    ensures archive[i] in Tar.DataMembers(entries, archive)
    decreases |archive|
  {
    if i < |archive| - 1 {
      DataMemberListed(entries, archive[..|archive| - 1], i);
    }
  }

  /** One member in listing order for each folder, each empty file and each file read whole; files hold their source's bytes. */
  ghost predicate Archived(sources: seq<Source>, entries: seq<Tar.Entry>, archive: seq<Tar.Member>)
    requires SameListing(sources, entries)
  {
    && Tar.Increasing(archive, |sources|)
    && Tar.Has(archive, (set p | 0 <= p < |sources| && (HasBytes(sources[p]) ==> Whole(sources[p]))))
    && (forall i :: 0 <= i < |archive| && archive[i].pos < |sources| ==>
          var src := sources[archive[i].pos];
          archive[i].dir == entries[archive[i].pos].kind.Dir? && archive[i].data == if HasBytes(src) then src.content[..src.entry.size] else [])
  }

  /** What a finished archive of an honest stream, or of its first part, skips: exactly the files not read whole. */
  lemma {:induction false} SkipsUnreadable(sources: seq<Source>, entries: seq<Tar.Entry>, atoms: seq<Atom>, items: seq<Tar.Item>,
                                           archive: seq<Tar.Member>, pos: nat)
    requires SameListing(sources, entries) && atoms <= Script(sources, AllSent(|sources|))
    requires Tar.ArchiveOf(entries, atoms, items, archive) && pos < |sources|
    ensures pos in Tar.SkippedOf(items) <==> HasBytes(sources[pos]) && !Whole(sources[pos])
  {
    hide Script, Tar.Narrate, Tar.MembersOf, Tar.DataMembers, Tar.Increasing, Tar.Sized;
    if pos in Tar.SkippedOf(items) {
      var i :| 0 <= i < |items| && items[i].Skipped? && items[i].pos == pos;
      ItemsAreTrue(sources, entries, atoms, items, i);
    } else {
      assert pos in Tar.Kept(entries, items);
      var j :| 0 <= j < |archive| && archive[j].pos == pos;
      if HasBytes(sources[pos]) {
        DataMemberListed(entries, archive, j);
        var i := DeliveredMember(items, archive[j]);
        ItemsAreTrue(sources, entries, atoms, items, i);
      }
    }
  }

  lemma {:induction false} MemberIsTrue(sources: seq<Source>, entries: seq<Tar.Entry>, atoms: seq<Atom>, items: seq<Tar.Item>,
                                        archive: seq<Tar.Member>, i: nat)
    requires SameListing(sources, entries) && atoms <= Script(sources, AllSent(|sources|))
    requires Tar.ArchiveOf(entries, atoms, items, archive) && i < |archive|
    ensures archive[i].pos < |sources|
    ensures var src := sources[archive[i].pos];
            && archive[i].dir == entries[archive[i].pos].kind.Dir?
            && (HasBytes(src) ==> Whole(src))
            && archive[i].data == if HasBytes(src) then src.content[..src.entry.size] else []
  {
    hide Script, Tar.Narrate, Tar.MembersOf, Tar.DataMembers, Tar.Increasing, Tar.Has;
    assert Tar.SizedMember(entries, archive[i]);
    if HasBytes(sources[archive[i].pos]) {
      DataMemberListed(entries, archive, i);
      var k := DeliveredMember(items, archive[i]);
      ItemsAreTrue(sources, entries, atoms, items, k);
    }
  }

  /** The archive of an honest stream. */
  lemma {:induction false} HonestArchive(sources: seq<Source>, entries: seq<Tar.Entry>, atoms: seq<Atom>, items: seq<Tar.Item>,
                                         archive: seq<Tar.Member>)
    requires SameListing(sources, entries) && atoms <= Script(sources, AllSent(|sources|))
    requires Tar.ArchiveOf(entries, atoms, items, archive)
    ensures Archived(sources, entries, archive)
  {
    hide Script, Tar.Narrate, Tar.MembersOf, Tar.DataMembers, Tar.Increasing, Tar.Has, Tar.Sized, Tar.SkippedOf, Tar.Verified;
    forall i | 0 <= i < |archive|
      ensures archive[i].pos < |sources|
      ensures var src := sources[archive[i].pos];
              && archive[i].dir == entries[archive[i].pos].kind.Dir?
              && (HasBytes(src) ==> Whole(src))
              && archive[i].data == if HasBytes(src) then src.content[..src.entry.size] else []
    {
      MemberIsTrue(sources, entries, atoms, items, archive, i);
    }
    forall p | 0 <= p < |sources|
      ensures p in Tar.SkippedOf(items) <==> HasBytes(sources[p]) && !Whole(sources[p])
    {
      SkipsUnreadable(sources, entries, atoms, items, archive, p);
    }
    assert Tar.Kept(entries, items)
        == (set p | 0 <= p < |sources| && (HasBytes(sources[p]) ==> Whole(sources[p])));
  }

  /**
   * A whole transfer into a pipe: it succeeds whenever no file becomes
   * unreadable in mid-file, and then the archive holds what the sources held.
   */
  method TransferTar(sources: seq<Source>, entries: seq<Tar.Entry>, zsize: seq<byte> -> nat) returns (r: Result<seq<Tar.Member>, Tar.Error>)
    requires SameListing(sources, entries)
    ensures (forall i :: 0 <= i < |sources| ==> !StopsMidFile(sources[i])) ==> r.Ok?
    ensures r.Ok? ==> Archived(sources, entries, r.value)
  {
    hide Script, StreamAtoms, ValidChunk, Archived, Tar.Completes, StopsMidFile, Tar.ArchiveOf;
    ghost var atoms := Script(sources, AllSent(|sources|));
    var sent := SendFiles(sources, AllSent(|sources|));
    var frames := WriteLoop(sent, zsize);
    var chunks := Transfer.ReadChunks(frames, sent);
    HonestStreamCompletes(sources, entries);
    assert chunks[..|chunks|] == chunks;
    if Tar.Completes(entries, atoms) {
      Tar.PrefixCompletes(entries, chunks, |chunks|);
    }
    r := Tar.StreamTar(entries, chunks);
    if r.Ok? {
      ghost var taken: nat, items: seq<Tar.Item> :| taken <= |chunks| && Tar.ArchiveOf(entries, StreamAtoms(chunks[..taken]), items, r.value);
      Transfer.StreamPrefix(chunks, taken);
      HonestArchive(sources, entries, StreamAtoms(chunks[..taken]), items, r.value);
    }
  }
}
