/** state.json never lists a file that is not on disk: not after any single change of the disk, and
    so not after a crash, over the whole life of a node. */
module CrashSafety {
  import opened Changeover

  /** Every file that state.json lists is on disk. */
  ghost predicate Listed(s: Snapshot) {
    Owned(s.saved) <= s.disk
  }

  // ---- one log -----------------------------------------------------------------------------------

  lemma {:induction false} SparedFilesStay(s: Snapshot, ops: seq<Op>, files: set<Path>)
    requires SparesFiles(files, ops)
    ensures ApplyAll(s, ops).saved == s.saved
    ensures forall p :: p in files && p in s.disk ==> p in ApplyAll(s, ops).disk
  {
    if ops != [] {
      var shorter := ops[..|ops| - 1];
      assert ops[|ops| - 1] in ops && forall op :: op in shorter ==> op in ops;
      SparedFilesStay(s, shorter, files);
    }
  }

  lemma DownloadsCut(t: Target, ops: seq<Op>, n: nat)
    requires Downloads(t, ops) && n <= |ops|
    ensures Downloads(t, ops[..n])
  {
    assert forall op :: op in ops[..n] ==> op in ops;
  }

  lemma WholeDownloadSafe(s: Snapshot, t: Target, ops: seq<Op>)
    requires Listed(s) && Downloads(t, ops) && PlainNames(Owned(s.saved) + TargetFiles(t))
    ensures Listed(ApplyAll(s, ops)) && ApplyAll(s, ops).saved == s.saved
  {
    DownloadsSaveNothing(s, t, ops);
    NoSidecars(t, Owned(s.saved), Owned(s.saved) + TargetFiles(t));
    DownloadsKeepFiles(s, t, ops, Owned(s.saved));
  }

  /** A download, cut anywhere, keeps every file that is no sidecar of the target's. */
  lemma DownloadSafe(s: Snapshot, t: Target, ops: seq<Op>, n: nat)
    requires Listed(s) && Downloads(t, ops) && n <= |ops|
    requires PlainNames(Owned(s.saved) + TargetFiles(t))
    ensures Listed(ApplyAll(s, ops[..n]))
    ensures ApplyAll(s, ops[..n]).saved == s.saved
  {
    DownloadsCut(t, ops, n);
    WholeDownloadSafe(s, t, ops[..n]);
  }

  lemma NoSidecars(t: Target, kept: set<Path>, all: set<Path>)
    requires PlainNames(all) && kept <= all && TargetFiles(t) <= all
    ensures forall f, p :: f in t.files && p in kept ==> p != Part(f) && p != Progress(f)
  {
    forall f, p | f in t.files && p in kept
      ensures p != Part(f) && p != Progress(f)
    {
      assert f in TargetFiles(t);
    }
  }

  /** Saving a state whose files are all there, and then removing none of them. */
  lemma TrimSafe(s: Snapshot, next: Channels, removed: seq<Op>, n: nat)
    requires Owned(next) <= s.disk && SparesFiles(Owned(next), removed) && n <= |removed|
    ensures Listed(ApplyAll(s, [Save(next)] + removed[..n]))
    ensures ApplyAll(s, [Save(next)] + removed[..n]).saved == next
  {
    var done := removed[..n];
    assert forall op :: op in done ==> op in removed;
    ApplyConcat(s, [Save(next)], done);
    assert [Save(next)][..0] == [];
    var mid := ApplyAll(s, [Save(next)]);
    assert mid == s.(saved := next);
    SparedFilesStay(mid, done, Owned(next));
  }

  lemma FetchThenTrimSafe(s: Snapshot, t: Target, fetched: seq<Op>, next: Channels, removed: seq<Op>, m: nat)
    requires Listed(s) && Fetched(s, t, fetched) && m <= |removed|
    requires PlainNames(Owned(s.saved) + TargetFiles(t))
    requires Owned(next) <= Owned(s.saved) + TargetFiles(t) && SparesFiles(Owned(next), removed)
    ensures var end := ApplyAll(s, fetched + ([Save(next)] + removed[..m]));
            Listed(end) && end.saved == next
  {
    ApplyConcat(s, fetched, [Save(next)] + removed[..m]);
    DownloadSafe(s, t, fetched, |fetched|);
    assert fetched[..|fetched|] == fetched;
    assert forall p :: p in TargetFiles(t) ==> p in Owned(s.saved) + TargetFiles(t);
    TrimSafe(ApplyAll(s, fetched), next, removed, m);
  }

  /** The order that changeover and start-up share: download, save, remove. */
  lemma FetchSaveTrimSafe(s: Snapshot, t: Target, fetched: seq<Op>, next: Channels, removed: seq<Op>, n: nat)
    requires Listed(s) && Fetched(s, t, fetched)
    requires PlainNames(Owned(s.saved) + TargetFiles(t))
    requires Owned(next) <= Owned(s.saved) + TargetFiles(t)
    requires SparesFiles(Owned(next), removed)
    requires n <= |fetched + [Save(next)] + removed|
    ensures var end := ApplyAll(s, (fetched + [Save(next)] + removed)[..n]);
            Listed(end) && (end.saved == s.saved || end.saved == next)
  {
    var ops := fetched + [Save(next)] + removed;
    if n <= |fetched| {
      assert ops[..n] == fetched[..n];
      DownloadSafe(s, t, fetched, n);
    } else {
      CutInLast(fetched, Save(next), removed, n);
      FetchThenTrimSafe(s, t, fetched, next, removed, n - |fetched| - 1);
    }
  }

  lemma CutInLast(a: seq<Op>, op: Op, b: seq<Op>, n: nat)
    requires |a| < n <= |a + [op] + b|
    ensures (a + [op] + b)[..n] == a + ([op] + b[..n - |a| - 1])
  {
    var m := n - |a| - 1;
    assert a + [op] + b == (a + [op]) + (b[..m] + b[m..]);
    assert a + [op] + b == (a + ([op] + b[..m])) + b[m..];
  }

  // ---- the changeover ----------------------------------------------------------------------------

  lemma RecordedOwns(channels: Channels, t: Target)
    ensures TargetFiles(t) <= Owned(Recorded(channels, t)) <= Owned(channels) + TargetFiles(t)
  {
    var next := Recorded(channels, t);
    forall p | p in TargetFiles(t) ensures p in Owned(next) {
      assert t.alias in next && p in next[t.alias].files;
    }
    forall p | p in Owned(next) ensures p in Owned(channels) + TargetFiles(t) {
      var a :| a in next && p in next[a].files;
      assert a == t.alias || (a in channels && p in channels[a].files);
    }
  }

  /** What record_channel calls stale is listed nowhere any more, sidecars included. */
  lemma SupersededSpares(underRoot: Path -> bool, channels: Channels, t: Target, removed: seq<Op>)
    requires PlainNames(Owned(channels) + TargetFiles(t))
    requires Deletions(underRoot, Superseded(channels, t), removed)
    ensures SparesFiles(Owned(Recorded(channels, t)), removed)
  {
    RecordedOwns(channels, t);
    var all := Owned(channels) + TargetFiles(t);
    forall op | op in removed ensures op.path !in Owned(Recorded(channels, t)) {
      var p :| p in Superseded(channels, t) && (op.path == p || op.path == Part(p) || op.path == Progress(p));
      assert t.alias in channels && p in channels[t.alias].files;
      assert p in all;
      assert op.path == Part(p) ==> Part(p) !in all;
    }
  }

  /** A changeover may be cut anywhere: state.json lists only files that are there, and lists the old
      version or the new one. */
  lemma ChangeOverSafe(underRoot: Path -> bool, s: Snapshot, t: Target, fetched: seq<Op>, removed: seq<Op>, n: nat)
    requires Listed(s) && Fetched(s, t, fetched)
    requires PlainNames(Owned(s.saved) + TargetFiles(t))
    requires Deletions(underRoot, Superseded(s.saved, t), removed)
    requires n <= |fetched + [Save(Recorded(s.saved, t))] + removed|
    ensures var end := ApplyAll(s, (fetched + [Save(Recorded(s.saved, t))] + removed)[..n]);
            Listed(end) && (end.saved == s.saved || end.saved == Recorded(s.saved, t))
  {
    SupersededSpares(underRoot, s.saved, t, removed);
    RecordedOwns(s.saved, t);
    FetchSaveTrimSafe(s, t, fetched, Recorded(s.saved, t), removed, n);
  }

  // ---- start-up ----------------------------------------------------------------------------------

  /** The files that start-up deletes although its own channel lists them: it takes the files of every
      other channel to be junk without looking whether they are still used. */
  function Shared(underRoot: Path -> bool, channels: Channels, t: Target): set<Path> {
    set p | p in TargetFiles(t) && p in FilesOfOthers(channels, t.alias) && underRoot(p)
  }

  lemma AbandonedSpares(underRoot: Path -> bool, channels: Channels, t: Target, deleted: seq<Op>)
    requires PlainNames(Owned(channels) + TargetFiles(t))
    requires Shared(underRoot, channels, t) == {}
    requires Deletions(underRoot, Abandoned(channels, t), deleted)
    ensures SparesFiles(TargetFiles(t), deleted)
  {
    RecordedOwns(channels, t);
    var all := Owned(channels) + TargetFiles(t);
    forall op | op in deleted ensures op.path !in TargetFiles(t) {
      var p :| p in Abandoned(channels, t) && underRoot(p)
               && (op.path == p || op.path == Part(p) || op.path == Progress(p));
      AbandonedOwned(channels, t, p);
      assert p in all;
      assert p in TargetFiles(t) ==> p in Shared(underRoot, channels, t);
      assert op.path == Part(p) ==> Part(p) !in all;
    }
  }

  lemma AbandonedOwned(channels: Channels, t: Target, p: Path)
    requires p in Abandoned(channels, t)
    ensures p in Owned(channels)
    ensures p in TargetFiles(t) ==> p in FilesOfOthers(channels, t.alias)
  {
    RecordedOwns(channels, t);
    if p in Superseded(channels, t) {
      assert t.alias in channels && p in channels[t.alias].files;
    } else {
      var a :| a in channels && a != t.alias && p in channels[a].files;
    }
  }

  lemma StartUpSafe(underRoot: Path -> bool, s: Snapshot, t: Target,
                    fetched: seq<Op>, deleted: seq<Op>, swept: seq<Op>, n: nat)
    requires Listed(s) && Fetched(s, t, fetched)
    requires PlainNames(Owned(s.saved) + TargetFiles(t))
    requires Shared(underRoot, s.saved, t) == {}
    requires Deletions(underRoot, Abandoned(s.saved, t), deleted) && SparesFiles(TargetFiles(t), swept)
    requires n <= |fetched + [Save(OnlyChannel(t))] + (deleted + swept)|
    ensures var end := ApplyAll(s, (fetched + [Save(OnlyChannel(t))] + (deleted + swept))[..n]);
            Listed(end) && (end.saved == s.saved || end.saved == OnlyChannel(t))
  {
    AbandonedSpares(underRoot, s.saved, t, deleted);
    OnlyOwned(t);
    FetchSaveTrimSafe(s, t, fetched, OnlyChannel(t), deleted + swept, n);
  }

  /** What StartUp promises of the disk where no unlink fails. */
  ghost predicate LeftBy(underRoot: Path -> bool, s: Snapshot, t: Target, fetched: seq<Op>, end: set<Path>) {
    forall q :: q in end <==>
      && q in ApplyAll(s, fetched).disk
      && !Erases(underRoot, Abandoned(s.saved, t), q)
      && (q in TargetFiles(t) || !underRoot(q) || !IsModelFile(q))
  }

  /** Exactly when a start-up whose unlinks all succeed leaves every listed file in place, provided that
      the target's own files are not named like each other's sidecars: none of them is an abandoned file
      below the root, or named like the sidecar of one. */
  lemma StartUpListsIff(underRoot: Path -> bool, s: Snapshot, t: Target, fetched: seq<Op>, end: set<Path>)
    requires Fetched(s, t, fetched) && PlainNames(TargetFiles(t)) && LeftBy(underRoot, s, t, fetched, end)
    ensures Listed(Snapshot(end, OnlyChannel(t))) <==>
              forall q :: q in TargetFiles(t) ==> !Erases(underRoot, Abandoned(s.saved, t), q)
  {
    OnlyOwned(t);
  }

  /** Where no file of any channel is named like another one's sidecar, that is: none of them is shared. */
  lemma StartUpListsIffNoneShared(underRoot: Path -> bool, s: Snapshot, t: Target, fetched: seq<Op>, end: set<Path>)
    requires Fetched(s, t, fetched) && PlainNames(Owned(s.saved) + TargetFiles(t))
    requires LeftBy(underRoot, s, t, fetched, end)
    ensures Listed(Snapshot(end, OnlyChannel(t))) <==> Shared(underRoot, s.saved, t) == {}
  {
    var all := Owned(s.saved) + TargetFiles(t);
    assert forall p :: p in TargetFiles(t) ==> p in all;
    StartUpListsIff(underRoot, s, t, fetched, end);
    if Shared(underRoot, s.saved, t) == {} {
      forall q | q in TargetFiles(t) ensures !Erases(underRoot, Abandoned(s.saved, t), q) {
        forall p | p in Abandoned(s.saved, t) && underRoot(p) ensures q != p && q != Part(p) && q != Progress(p) {
          AbandonedOwned(s.saved, t, p);
          assert p in all && q in all;
          assert p in TargetFiles(t) ==> p in Shared(underRoot, s.saved, t);
        }
      }
    } else {
      var p :| p in Shared(underRoot, s.saved, t);
      assert p in Abandoned(s.saved, t);
      assert p in TargetFiles(t) && Erases(underRoot, Abandoned(s.saved, t), p);
    }
  }

  // ---- the life of a node ------------------------------------------------------------------------

  /** A life: stretch after stretch, each one cut after any number of changes. */
  datatype Life = Fresh | Then(before: Life, stretch: Stretch, cut: nat)

  function After(s: Snapshot, life: Life): Snapshot {
    match life
    case Fresh => s
    case Then(before, x, cut) =>
      var now := After(s, before);
      var ops := Logged(now, x);
      ApplyAll(now, if cut <= |ops| then ops[..cut] else ops)
  }

  ghost predicate Lived(underRoot: Path -> bool, s: Snapshot, offered: set<Target>, life: Life) {
    match life
    case Fresh => true
    case Then(before, x, _) =>
      && Lived(underRoot, s, offered, before)
      && Possible(underRoot, After(s, before), x)
      && x.target in offered
  }

  /** Different models have different destinations, and no model file is named like a sidecar. */
  ghost predicate Distinct(offered: set<Target>) {
    && (forall t, u, p :: t in offered && u in offered && t.alias != u.alias && p in t.files ==> p !in u.files)
    && (forall t, u, p :: t in offered && u in offered && p in t.files ==>
         Part(p) !in u.files && Progress(p) !in u.files)
  }

  /** Every recorded channel is one of the offered models. */
  ghost predicate FromOffers(offered: set<Target>, channels: Channels) {
    forall a :: a in channels ==> exists t :: t in offered && t.alias == a && t.files == channels[a].files
  }

  lemma OffersPlain(offered: set<Target>, channels: Channels, t: Target)
    requires Distinct(offered) && FromOffers(offered, channels) && t in offered
    ensures PlainNames(Owned(channels) + TargetFiles(t))
  {
    var all := Owned(channels) + TargetFiles(t);
    forall p, q | p in all && q in all ensures q != Part(p) && q != Progress(p) {
      var u, v := OfferOf(offered, channels, t, p), OfferOf(offered, channels, t, q);
    }
  }

  lemma OffersUnshared(underRoot: Path -> bool, offered: set<Target>, channels: Channels, t: Target)
    requires Distinct(offered) && FromOffers(offered, channels) && t in offered
    ensures Shared(underRoot, channels, t) == {}
  {
    forall a, p | a in channels && a != t.alias && p in channels[a].files ensures p !in t.files {
      var u :| u in offered && u.alias == a && u.files == channels[a].files;
      assert p in u.files;
    }
  }

  ghost function OfferOf(offered: set<Target>, channels: Channels, t: Target, p: Path): (u: Target)
    requires FromOffers(offered, channels) && t in offered && p in Owned(channels) + TargetFiles(t)
    ensures u in offered && p in u.files
  {
    if p in t.files then t else
      var a :| a in channels && p in channels[a].files;
      var u :| u in offered && u.alias == a && u.files == channels[a].files;
      u
  }

  /** Over any life of a node that follows distinct models, with crashes anywhere, every file that
      state.json lists is on disk. */
  lemma {:induction false} StateJsonNeverDangles(underRoot: Path -> bool, s: Snapshot, offered: set<Target>, life: Life)
    requires Lived(underRoot, s, offered, life) && Distinct(offered)
    requires Listed(s) && FromOffers(offered, s.saved)
    ensures Listed(After(s, life)) && FromOffers(offered, After(s, life).saved)
  {
    match life
    case Fresh =>
    case Then(before, x, cut) =>
      StateJsonNeverDangles(underRoot, s, offered, before);
      var now := After(s, before);
      var ops := Logged(now, x);
      var n := if cut <= |ops| then cut else |ops|;
      assert ops[..|ops|] == ops;
      OffersPlain(offered, now.saved, x.target);
      OffersUnshared(underRoot, offered, now.saved, x.target);
      match x {
        case Stopped(t, fetched) => DownloadSafe(now, t, fetched, n);
        case Switched(t, fetched, removed) => ChangeOverSafe(underRoot, now, t, fetched, removed, n);
        case Started(t, fetched, deleted, swept) => StartUpSafe(underRoot, now, t, fetched, deleted, swept, n);
      }
  }

  // ---- versions ----------------------------------------------------------------------------------

  /** The version that the node ran last. A stretch that is cut does not get to change it. */
  function RanVersion(s: Snapshot, life: Life): int {
    match life
    case Fresh => 0
    case Then(before, x, cut) =>
      if x.Stopped? || cut < |Logged(After(s, before), x)| then RanVersion(s, before) else x.target.version
  }

  /** No round switched to a lower version than the one that ran. NodeLife shows that running nodes
      live such lives. */
  ghost predicate Polled(s: Snapshot, life: Life) {
    match life
    case Fresh => true
    case Then(before, x, _) =>
      Polled(s, before) && (x.Switched? ==> x.target.version >= RanVersion(s, before))
  }

  /** The version falls in exactly one way: a start-up goes through with a lower one, whatever the
      catalogue serves. */
  lemma VersionFallsOnlyAtStartUp(s: Snapshot, life: Life)
    requires Polled(s, life) && life.Then?
    ensures RanVersion(s, life) < RanVersion(s, life.before) <==>
              && life.stretch.Started? && life.cut >= |Logged(After(s, life.before), life.stretch)|
              && life.stretch.target.version < RanVersion(s, life.before)
  {
  }

  /** `later` goes on from `early` without another start-up. */
  ghost predicate SameProcess(early: Life, later: Life) {
    early == later || (later.Then? && !later.stretch.Started? && SameProcess(early, later.before))
  }

  /** So it never falls between two start-ups, over any number of rounds, cut or not. */
  lemma {:induction false} VersionNeverFallsBetweenStarts(s: Snapshot, early: Life, later: Life)
    requires Polled(s, later) && SameProcess(early, later)
    ensures RanVersion(s, early) <= RanVersion(s, later)
  {
    if early != later {
      VersionNeverFallsBetweenStarts(s, early, later.before);
    }
  }
}
