/** A node's model files: the cache on disk, state.json, start-up, and the swap of a running channel
    to a new version. Every single change of the disk is logged, so that a crash can fall between
    any two of them. */
module Changeover {
  import opened Bytes

  type Alias = string

  datatype Path = Path(dir: string, name: string)

  datatype Channel = Channel(manifestHash: string, version: int, files: seq<Path>)

  /** The channels recorded in state.json. */
  type Channels = map<Alias, Channel>

  /** A model to run, with the destination of each of its files. */
  datatype Target = Target(alias: Alias, version: int, manifestHash: string, files: seq<Path>)

  function Part(p: Path): Path {
    Path(p.dir, p.name + ".part")
  }

  function Progress(p: Path): Path {
    Path(p.dir, p.name + ".mcprogress.json")
  }

  function ToSet(paths: seq<Path>): set<Path> {
    set p | p in paths
  }

  lemma ToSetSnoc(paths: seq<Path>, i: nat)
    requires i < |paths|
    ensures ToSet(paths[..i + 1]) == ToSet(paths[..i]) + {paths[i]}
  {
    assert paths[..i + 1] == paths[..i] + [paths[i]];
  }

  lemma SetOfThree(a: Path, b: Path, c: Path)
    ensures ToSet([a, b, c]) == {a, b, c}
  {
    assert [a, b, c][0] in [a, b, c] && [a, b, c][1] in [a, b, c] && [a, b, c][2] in [a, b, c];
  }

  function Owned(channels: Channels): set<Path> {
    set a, p | a in channels && p in channels[a].files :: p
  }

  // ---- the disk ----------------------------------------------------------------------------------

  datatype Snapshot = Snapshot(disk: set<Path>, saved: Channels)

  /** One change of the disk; Save replaces state.json as a whole. */
  datatype Op = Create(path: Path) | Remove(path: Path) | Save(channels: Channels)

  function Apply(s: Snapshot, op: Op): Snapshot {
    match op
    case Create(p) => s.(disk := s.disk + {p})
    case Remove(p) => s.(disk := s.disk - {p})
    case Save(channels) => s.(saved := channels)
  }

  function ApplyAll(s: Snapshot, ops: seq<Op>): Snapshot {
    if ops == [] then s else Apply(ApplyAll(s, ops[..|ops| - 1]), ops[|ops| - 1])
  }

  lemma ApplySnoc(s: Snapshot, ops: seq<Op>, op: Op)
    ensures ApplyAll(s, ops + [op]) == Apply(ApplyAll(s, ops), op)
  {
    assert (ops + [op])[..|ops|] == ops;
  }

  lemma {:induction false} ApplyConcat(s: Snapshot, a: seq<Op>, b: seq<Op>)
    ensures ApplyAll(s, a + b) == ApplyAll(ApplyAll(s, a), b)
  {
    if b == [] {
      assert a + b == a;
    } else {
      var n := |b| - 1;
      ApplyConcat(s, a, b[..n]);
      assert (a + b)[..|a| + n] == a + b[..n];
    }
  }

  // ---- state.json --------------------------------------------------------------------------------

  function ChannelFor(t: Target): Channel {
    Channel(t.manifestHash, t.version, t.files)
  }

  function Recorded(channels: Channels, t: Target): Channels {
    channels[t.alias := ChannelFor(t)]
  }

  /** record_channel: the files of the alias's previous version that no channel uses any more. */
  function Superseded(channels: Channels, t: Target): set<Path> {
    if t.alias !in channels then {} else ToSet(channels[t.alias].files) - Owned(Recorded(channels, t))
  }

  function FilesOfOthers(channels: Channels, alias: Alias): set<Path> {
    set a, p | a in channels && a != alias && p in channels[a].files :: p
  }

  /** At start-up every other channel is dropped, and its files are taken to be junk. */
  function Abandoned(channels: Channels, t: Target): set<Path> {
    Superseded(channels, t) + FilesOfOthers(channels, t.alias)
  }

  function OnlyChannel(t: Target): Channels {
    map[t.alias := ChannelFor(t)]
  }

  /** Deleting these paths may remove q: one of them below the cache root, or its sidecar. */
  ghost predicate Erases(underRoot: Path -> bool, paths: set<Path>, q: Path) {
    exists p :: p in paths && underRoot(p) && (q == p || q == Part(p) || q == Progress(p))
  }

  predicate EndsWith(s: string, tail: string) {
    |tail| <= |s| && s[|s| - |tail|..] == tail
  }

  predicate IsModelFile(p: Path) {
    || (EndsWith(p.name, ".gguf") && |p.name| > 5)
    || EndsWith(p.name, ".gguf.part")
    || EndsWith(p.name, ".mcprogress.json")
  }

  // ---- what a changeover is for, over state.json and the disk ------------------------------------

  /** state.json points the alias at the new version, and keeps every other entry. */
  ghost predicate RecordsOnly(before: Channels, t: Target, now: Channels) {
    && now.Keys == before.Keys + {t.alias}
    && now[t.alias].manifestHash == t.manifestHash && now[t.alias].version == t.version && now[t.alias].files == t.files
    && forall a :: a in before && a != t.alias ==> now[a] == before[a]
  }

  /** The alias listed p before, and no channel lists it now. */
  ghost predicate Replaced(before: Channels, now: Channels, alias: Alias, p: Path) {
    && alias in before && p in before[alias].files
    && forall a :: a in now ==> p !in now[a].files
  }

  /** q is p, or p with ".part" or ".mcprogress.json" behind its name. */
  predicate IsOrAccompanies(q: Path, p: Path) {
    q.dir == p.dir && (q.name == p.name || q.name == p.name + ".part" || q.name == p.name + ".mcprogress.json")
  }

  /** Every replaced file below the root is gone with its sidecars, and nothing else is. */
  ghost predicate RemovesReplaced(underRoot: Path -> bool, before: Channels, now: Channels, alias: Alias,
                                  fetched: set<Path>, disk: set<Path>)
  {
    && disk <= fetched
    && (forall p, q :: Replaced(before, now, alias, p) && underRoot(p) && IsOrAccompanies(q, p) ==> q !in disk)
    && (forall q :: q in fetched && q !in disk ==>
         exists p :: Replaced(before, now, alias, p) && underRoot(p) && IsOrAccompanies(q, p))
  }

  lemma SupersededIsReplaced(channels: Channels, t: Target, p: Path)
    ensures p in Superseded(channels, t) <==> Replaced(channels, Recorded(channels, t), t.alias, p)
  {
    var now := Recorded(channels, t);
    assert p in Owned(now) <==> exists a :: a in now && p in now[a].files;
  }

  lemma ReplacedAreRemoved(underRoot: Path -> bool, channels: Channels, t: Target, fetched: set<Path>, disk: set<Path>,
                           stuck: set<Path>)
    requires stuck == {} ==> forall q :: q in disk <==> q in fetched && !Erases(underRoot, Superseded(channels, t), q)
    ensures stuck == {} ==> RemovesReplaced(underRoot, channels, Recorded(channels, t), t.alias, fetched, disk)
  {
    forall p
      ensures p in Superseded(channels, t) <==> Replaced(channels, Recorded(channels, t), t.alias, p)
    {
      SupersededIsReplaced(channels, t, p);
    }
    forall p, q
      ensures IsOrAccompanies(q, p) <==> q == p || q == Part(p) || q == Progress(p)
    {
      AccompaniesIs(p, q);
    }
  }

  /** An earlier channel listed p, and start-up has no use for it: it is no file of the target, or another
      channel's. */
  ghost predicate LeftOver(before: Channels, t: Target, p: Path) {
    exists a :: a in before && p in before[a].files && (a != t.alias || p !in t.files)
  }

  /** What earlier channels leave over below the root is gone with its sidecars, and so is every model
      file below the root that is none of the target's; nothing else is. */
  ghost predicate KeepsOnlyTarget(underRoot: Path -> bool, before: Channels, t: Target,
                                  fetched: set<Path>, disk: set<Path>)
  {
    && disk <= fetched
    && (forall p, q :: LeftOver(before, t, p) && underRoot(p) && IsOrAccompanies(q, p) ==> q !in disk)
    && (forall q :: underRoot(q) && q !in t.files && IsModelFile(q) ==> q !in disk)
    && (forall q :: q in fetched && q !in disk ==>
         || (underRoot(q) && q !in t.files && IsModelFile(q))
         || exists p :: LeftOver(before, t, p) && underRoot(p) && IsOrAccompanies(q, p))
  }

  lemma AbandonedIsLeftOver(channels: Channels, t: Target, p: Path)
    ensures p in Abandoned(channels, t) <==> LeftOver(channels, t, p)
  {
    SupersededIsReplaced(channels, t, p);
    if LeftOver(channels, t, p) && p !in FilesOfOthers(channels, t.alias) {
      assert forall a :: a in channels && a != t.alias ==> p !in channels[a].files;
      assert forall a :: a in Recorded(channels, t) ==> p !in Recorded(channels, t)[a].files;
    }
    if Replaced(channels, Recorded(channels, t), t.alias, p) {
      assert t.alias in Recorded(channels, t) && p !in t.files;
    }
  }

  lemma LeftOverIsRemoved(underRoot: Path -> bool, channels: Channels, t: Target, fetched: set<Path>, disk: set<Path>,
                          stuck: set<Path>)
    requires stuck == {} ==>
               forall q :: q in disk <==>
                 && q in fetched && !Erases(underRoot, Abandoned(channels, t), q)
                 && (q in TargetFiles(t) || !underRoot(q) || !IsModelFile(q))
    ensures stuck == {} ==> KeepsOnlyTarget(underRoot, channels, t, fetched, disk)
  {
    forall p
      ensures p in Abandoned(channels, t) <==> LeftOver(channels, t, p)
    {
      AbandonedIsLeftOver(channels, t, p);
    }
    forall p, q
      ensures IsOrAccompanies(q, p) <==> q == p || q == Part(p) || q == Progress(p)
    {
      AccompaniesIs(p, q);
    }
  }

  lemma EndsWithIff(s: string, tail: string)
    ensures EndsWith(s, tail) <==> exists stem: string :: s == stem + tail
  {
    if EndsWith(s, tail) {
      assert s == s[..|s| - |tail|] + tail;
    }
    if stem: string :| s == stem + tail {
      assert s[|s| - |tail|..] == tail;
    }
  }

  /** What the sweep takes for a model file: ".gguf" with something before it, and the two sidecars. */
  lemma ModelFileIff(p: Path)
    ensures IsModelFile(p) <==>
              || (exists stem: string :: stem != "" && p.name == stem + ".gguf")
              || (exists stem: string :: p.name == stem + ".gguf.part")
              || (exists stem: string :: p.name == stem + ".mcprogress.json")
  {
    EndsWithIff(p.name, ".gguf");
    EndsWithIff(p.name, ".gguf.part");
    EndsWithIff(p.name, ".mcprogress.json");
  }

  lemma AccompaniesIs(p: Path, q: Path)
    ensures IsOrAccompanies(q, p) <==> q == p || q == Part(p) || q == Progress(p)
  {
  }

  // ---- what a run of the program may do to the disk ----------------------------------------------

  function TargetFiles(t: Target): set<Path> {
    ToSet(t.files)
  }

  /** Downloading creates the target's files and their sidecars, and removes only sidecars. */
  ghost predicate Downloads(t: Target, ops: seq<Op>) {
    forall op :: op in ops ==>
      match op
      case Create(p) => exists f :: f in t.files && (p == f || p == Part(f) || p == Progress(f))
      case Remove(p) => exists f :: f in t.files && (p == Part(f) || p == Progress(f))
      case Save(_) => false
  }

  ghost predicate Deletions(underRoot: Path -> bool, paths: set<Path>, ops: seq<Op>) {
    forall op :: op in ops ==> op.Remove? && Erases(underRoot, paths, op.path)
  }

  ghost predicate SparesFiles(files: set<Path>, ops: seq<Op>) {
    forall op :: op in ops ==> op.Remove? && op.path !in files
  }

  /** No file is named like another one's sidecar. */
  ghost predicate PlainNames(paths: set<Path>) {
    forall p, q :: p in paths && q in paths ==> q != Part(p) && q != Progress(p)
  }

  /** Everything was downloaded. */
  ghost predicate Fetched(s: Snapshot, t: Target, fetched: seq<Op>) {
    && Downloads(t, fetched)
    && (PlainNames(TargetFiles(t)) ==> TargetFiles(t) <= ApplyAll(s, fetched).disk)
  }

  /** What one start-up or one changeover logs: it stopped before saving, or it went through. */
  datatype Stretch =
    | Stopped(target: Target, fetched: seq<Op>)
    | Switched(target: Target, fetched: seq<Op>, removed: seq<Op>)
    | Started(target: Target, fetched: seq<Op>, deleted: seq<Op>, swept: seq<Op>)

  /** The changes of a stretch that begins in s, in order. */
  function Logged(s: Snapshot, x: Stretch): seq<Op> {
    match x
    case Stopped(_, fetched) => fetched
    case Switched(t, fetched, removed) => fetched + [Save(Recorded(s.saved, t))] + removed
    case Started(t, fetched, deleted, swept) => fetched + [Save(OnlyChannel(t))] + (deleted + swept)
  }

  /** Which stretches may begin in s. */
  ghost predicate Possible(underRoot: Path -> bool, s: Snapshot, x: Stretch) {
    match x
    case Stopped(t, fetched) => Downloads(t, fetched)
    case Switched(t, fetched, removed) =>
      Fetched(s, t, fetched) && Deletions(underRoot, Superseded(s.saved, t), removed)
    case Started(t, fetched, deleted, swept) =>
      && Fetched(s, t, fetched)
      && Deletions(underRoot, Abandoned(s.saved, t), deleted)
      && SparesFiles(TargetFiles(t), swept)
  }

  lemma {:induction false} DownloadsSaveNothing(s: Snapshot, t: Target, ops: seq<Op>)
    requires Downloads(t, ops)
    ensures ApplyAll(s, ops).saved == s.saved
  {
    if ops != [] {
      var shorter := ops[..|ops| - 1];
      assert ops[|ops| - 1] in ops && forall op :: op in shorter ==> op in ops;
      DownloadsSaveNothing(s, t, shorter);
    }
  }

  lemma DownloadsConcat(t: Target, a: seq<Op>, b: seq<Op>)
    requires Downloads(t, a) && Downloads(t, b)
    ensures Downloads(t, a + b)
  {
    assert forall op :: op in a + b <==> op in a || op in b;
  }

  // ---- the program -------------------------------------------------------------------------------

  /** The changes one download makes on the way: opening the file, its .part or its sidecar, dropping
      one of the latter, and moving the finished .part into place. */
  datatype FileOp = OpenFile | OpenPart | OpenSidecar | DropPart | DropSidecar | Commit

  /** A download from origin: it moves the finished .part into place, or raises on the way. */
  datatype Origin = Finishes(before: seq<FileOp>) | Fails(before: seq<FileOp>)

  /** What the surroundings do: which files have the right size and hash before and after the swarm had
      its turn, what the swarm does for each file and whether it reports success, how origin fares,
      which of the calls that can raise succeed, and which files cannot be unlinked. */
  datatype Surroundings = Surroundings(
    matches: Path -> bool, enoughStorage: bool,
    swarm: Path -> seq<FileOp>, reported: Path -> bool, matchesThen: Path -> bool, origin: Path -> Origin,
    builds: bool, starts: bool, restarts: bool, saves: bool, stuck: set<Path>)

  datatype Swap = Swapped | Kept | Raised

  class NodeDaemon {
    const underRoot: Path -> bool
    var disk: set<Path>
    var saved: Channels
    var engine: Option<Path>
    var updating: bool
    var channel: Option<Alias>
    var manifestHash: string
    var version: int
    ghost const origin: Snapshot
    ghost var log: seq<Op>

    ghost function Snap(): Snapshot
      reads this
    {
      Snapshot(disk, saved)
    }

    /** The log accounts for the whole disk since the process began. */
    ghost predicate Valid()
      reads this
    {
      Snap() == ApplyAll(origin, log)
    }

    constructor (underRoot: Path -> bool, disk: set<Path>, saved: Channels)
      ensures this.underRoot == underRoot && Snap() == origin == Snapshot(disk, saved) && log == [] && Valid()
      ensures engine == None && !updating && channel == None && version == 0
    {
      this.underRoot, this.disk, this.saved, origin, log := underRoot, disk, saved, Snapshot(disk, saved), [];
      engine, updating, channel, manifestHash, version := None, false, None, "", 0;
    }

    method CreateFile(p: Path)
      requires Valid()
      modifies this`disk, this`log
      ensures Valid() && log == old(log) + [Create(p)] && disk == old(disk) + {p}
    {
      ApplySnoc(origin, log, Create(p));
      disk, log := disk + {p}, log + [Create(p)];
    }

    method RemoveFile(p: Path)
      requires Valid()
      modifies this`disk, this`log
      ensures Valid() && log == old(log) + [Remove(p)] && disk == old(disk) - {p}
    {
      ApplySnoc(origin, log, Remove(p));
      disk, log := disk - {p}, log + [Remove(p)];
    }

    /** save_state writes a temporary file and replaces state.json with it. */
    method SaveState(channels: Channels)
      requires Valid()
      modifies this`saved, this`log
      ensures Valid() && log == old(log) + [Save(channels)] && saved == channels
    {
      ApplySnoc(origin, log, Save(channels));
      saved, log := channels, log + [Save(channels)];
    }

    /** The changes behind one file operation of a download. */
    method Perform(t: Target, p: Path, op: FileOp) returns (ghost ops: seq<Op>)
      requires Valid() && p in t.files
      modifies this`disk, this`log
      ensures Valid() && log == old(log) + ops && Downloads(t, ops)
      ensures op == Commit ==> p in disk
    {
      ops := [];
      match op {
        case OpenFile => CreateFile(p); ops := [Create(p)];
        case OpenPart => CreateFile(Part(p)); ops := [Create(Part(p))];
        case OpenSidecar => CreateFile(Progress(p)); ops := [Create(Progress(p))];
        case DropPart => RemoveFile(Part(p)); ops := [Remove(Part(p))];
        case DropSidecar => RemoveFile(Progress(p)); ops := [Remove(Progress(p))];
        case Commit =>
          CreateFile(p);
          assert |Part(p).name| > |p.name|;
          RemoveFile(Part(p));
          ops := [Create(p), Remove(Part(p))];
      }
    }

    method RunScript(t: Target, p: Path, script: seq<FileOp>) returns (ghost ops: seq<Op>)
      requires Valid() && p in t.files
      modifies this`disk, this`log
      ensures Valid() && log == old(log) + ops && Downloads(t, ops)
    {
      ops := [];
      for i := 0 to |script|
        invariant Valid() && log == old(log) + ops && Downloads(t, ops)
      {
        ghost var more := Perform(t, p, script[i]);
        DownloadsConcat(t, ops, more);
        ops := ops + more;
      }
    }

    /** One missing file: from the swarm if that reports success and the file is there and matches,
        otherwise from origin; false where origin raises. */
    method Download(t: Target, p: Path, env: Surroundings) returns (ok: bool, ghost ops: seq<Op>)
      requires Valid() && p in t.files
      modifies this`disk, this`log
      ensures Valid() && log == old(log) + ops && Downloads(t, ops)
      ensures ok ==> p in disk
      ensures env.origin(p).Finishes? ==> ok
      ensures !env.reported(p) || !env.matchesThen(p) ==> (ok <==> env.origin(p).Finishes?)
    {
      ops := RunScript(t, p, env.swarm(p));
      if env.reported(p) && p in disk && env.matchesThen(p) {
        return true, ops;
      }
      ghost var more := RunScript(t, p, env.origin(p).before);
      DownloadsConcat(t, ops, more);
      ops := ops + more;
      ok := env.origin(p).Finishes?;
      if ok {
        more := Perform(t, p, Commit);
        DownloadsConcat(t, ops, more);
        ops := ops + more;
      }
    }

    method MissingFiles(t: Target, env: Surroundings) returns (missing: seq<Path>)
      ensures forall p :: p in missing <==> p in t.files && (p !in disk || !env.matches(p))
    {
      missing := [];
      for i := 0 to |t.files|
        invariant forall p :: p in missing <==> p in t.files[..i] && (p !in disk || !env.matches(p))
      {
        if t.files[i] !in disk || !env.matches(t.files[i]) {
          missing := missing + [t.files[i]];
        }
      }
    }

    /** Fetches the files one after the other, up to the first that fails. */
    method FetchMissing(t: Target, missing: seq<Path>, env: Surroundings) returns (ok: bool, ghost ops: seq<Op>)
      requires Valid() && forall p :: p in missing ==> p in t.files
      modifies this`disk, this`log
      ensures Valid() && log == old(log) + ops && Downloads(t, ops)
      ensures ok && PlainNames(TargetFiles(t)) ==>
                forall p :: p in t.files && (p in missing || p in old(disk)) ==> p in disk
      ensures missing == [] ==> ops == []
      ensures (forall p :: p in missing ==> env.origin(p).Finishes?) ==> ok
    {
      ops := [];
      for i := 0 to |missing|
        invariant Valid() && log == old(log) + ops && Downloads(t, ops) && (i == 0 ==> ops == [])
        invariant PlainNames(TargetFiles(t)) ==>
                    forall p :: p in t.files && (p in missing[..i] || p in old(disk)) ==> p in disk
      {
        ghost var more;
        ok, more := FetchOne(t, missing[i], env);
        DownloadsConcat(t, ops, more);
        ops := ops + more;
        if !ok {
          return;
        }
        ToSetSnoc(missing, i);
      }
      assert missing[..|missing|] == missing;
      ok := true;
    }

    /** One turn of that loop. With plain names it takes no file of the target away again. */
    method FetchOne(t: Target, p: Path, env: Surroundings) returns (ok: bool, ghost ops: seq<Op>)
      requires Valid() && p in t.files
      modifies this`disk, this`log
      ensures Valid() && log == old(log) + ops && Downloads(t, ops)
      ensures ok ==> p in disk
      ensures PlainNames(TargetFiles(t)) ==> forall q :: q in t.files && q in old(disk) ==> q in disk
      ensures env.origin(p).Finishes? ==> ok
    {
      ok, ops := Download(t, p, env);
      ApplyConcat(origin, old(log), ops);
      if PlainNames(TargetFiles(t)) {
        DownloadsKeepFiles(old(Snap()), t, ops, TargetFiles(t));
      }
    }

    /** ensure_model: fetch what is missing or does not match; false where it raises. */
    method EnsureModel(t: Target, env: Surroundings) returns (ok: bool, ghost ops: seq<Op>)
      requires Valid()
      modifies this`disk, this`log
      ensures Valid() && log == old(log) + ops && Downloads(t, ops)
      ensures Snap() == ApplyAll(old(Snap()), ops)
      ensures ok ==> t.files != [] && Fetched(old(Snap()), t, ops)
      ensures t.files != [] && (forall p :: p in t.files ==> p in old(disk) && env.matches(p)) ==> ok && ops == []
      ensures t.files != [] && env.enoughStorage && (forall p :: p in t.files ==> env.origin(p).Finishes?) ==> ok
      ensures !env.enoughStorage && ok ==> forall p :: p in t.files ==> p in old(disk) && env.matches(p)
    {
      ops := [];
      var missing := MissingFiles(t, env);
      assert missing != [] ==> missing[0] in missing;
      if missing != [] && !env.enoughStorage {
        return false, ops;
      }
      ok, ops := FetchMissing(t, missing, env);
      ApplyConcat(origin, old(log), ops);
      ok := ok && t.files != [];
    }

    /** A file, then its two sidecars; an unlink that fails ends it. */
    method Unlink(p: Path, stuck: set<Path>) returns (ghost ops: seq<Op>)
      requires Valid()
      modifies this`disk, this`log
      ensures Valid() && log == old(log) + ops
      ensures forall op :: op in ops ==> op.Remove? && op.path in {p, Part(p), Progress(p)}
      ensures disk <= old(disk)
      ensures stuck == {} ==> disk == old(disk) - {p, Part(p), Progress(p)}
    {
      ops := [];
      var extras := [p, Part(p), Progress(p)];
      ghost var all := extras;
      SetOfThree(p, Part(p), Progress(p));
      for i := 0 to |extras|
        invariant Valid() && log == old(log) + ops && disk <= old(disk)
        invariant forall op :: op in ops ==> op.Remove? && op.path in ToSet(all)
        invariant stuck == {} ==> disk == old(disk) - ToSet(all[..i])
      {
        ToSetSnoc(all, i);
        assert extras[i] == all[i];
        if extras[i] in disk {
          if extras[i] in stuck {
            return;
          }
          RemoveFile(extras[i]);
          ops := ops + [Remove(extras[i])];
        }
      }
      assert all[..|all|] == all;
    }

    method DeleteFiles(paths: seq<Path>, stuck: set<Path>) returns (ghost ops: seq<Op>)
      requires Valid()
      modifies this`disk, this`log
      ensures Valid() && log == old(log) + ops && Deletions(underRoot, ToSet(paths), ops)
      ensures disk <= old(disk)
      ensures stuck == {} ==>
                forall q :: q in disk <==> q in old(disk) && !Erases(underRoot, ToSet(paths), q)
    {
      ops := [];
      ghost var all := ToSet(paths);
      for i := 0 to |paths|
        invariant Valid() && log == old(log) + ops && disk <= old(disk)
        invariant Deletions(underRoot, all, ops)
        invariant stuck == {} ==>
                    forall q :: q in disk <==> q in old(disk) && !Erases(underRoot, ToSet(paths[..i]), q)
      {
        ToSetSnoc(paths, i);
        if underRoot(paths[i]) {
          assert paths[i] in all;
          ghost var more := Unlink(paths[i], stuck);
          ops := ops + more;
        }
      }
      assert paths[..|paths|] == paths;
    }

    method SweepOrphans(stuck: set<Path>) returns (ghost ops: seq<Op>)
      requires Valid()
      modifies this`disk, this`log
      ensures Valid() && log == old(log) + ops && SparesFiles(Owned(saved), ops)
      ensures disk <= old(disk)
      ensures stuck == {} ==>
                forall p :: p in disk <==>
                  p in old(disk) && (p in Owned(saved) || !underRoot(p) || !IsModelFile(p))
    {
      ops := [];
      var todo := disk;
      ghost var owned := Owned(saved);
      while todo != {}
        invariant todo <= disk <= old(disk)
        invariant Valid() && log == old(log) + ops && SparesFiles(owned, ops)
        invariant stuck == {} ==>
                    forall p :: p in old(disk) - todo ==>
                      (p in disk <==> p in owned || !underRoot(p) || !IsModelFile(p))
        decreases todo
      {
        var p :| p in todo;
        todo := todo - {p};
        if underRoot(p) && p !in Owned(saved) && IsModelFile(p) && p !in stuck {
          RemoveFile(p);
          ops := ops + [Remove(p)];
        }
      }
    }

    /** Stop the old engine, start the new one, and only then record the new version and delete what
        it supersedes. */
    method Switch(t: Target, env: Surroundings) returns (r: Swap, ghost removed: seq<Op>)
      requires Valid() && t.files != []
      modifies this`engine, this`disk, this`saved, this`log, this`manifestHash, this`version
      ensures Valid()
      ensures r == Swapped <==> env.builds && env.starts && env.saves
      ensures r == Kept <==> env.builds && !env.starts && (old(engine).None? || env.restarts)
      ensures r != Swapped ==> log == old(log) && saved == old(saved)
                               && version == old(version) && manifestHash == old(manifestHash)
      ensures r == Kept ==> engine == old(engine)
      ensures r == Swapped ==>
                && log == old(log) + [Save(Recorded(old(saved), t))] + removed
                && Deletions(underRoot, Superseded(old(saved), t), removed)
                && engine == Some(t.files[0]) && saved == Recorded(old(saved), t)
                && version == t.version && manifestHash == t.manifestHash
      ensures r == Swapped && env.stuck == {} ==>
                forall q :: q in disk <==> q in old(disk) && !Erases(underRoot, Superseded(old(saved), t), q)
    {
      removed := [];
      if !env.builds {
        return Raised, removed;
      }
      if !env.starts {
        r := if engine.Some? && !env.restarts then Raised else Kept;
        return;
      }
      engine := Some(t.files[0]);
      if !env.saves {
        return Raised, removed;
      }
      removed := Replace(t, env.stuck);
      manifestHash, version := t.manifestHash, t.version;
      r := Swapped;
    }

    /** Record the new version, and only then delete what it supersedes. */
    method Replace(t: Target, stuck: set<Path>) returns (ghost removed: seq<Op>)
      requires Valid()
      modifies this`disk, this`saved, this`log
      ensures Valid() && saved == Recorded(old(saved), t)
      ensures log == old(log) + [Save(Recorded(old(saved), t))] + removed
      ensures Deletions(underRoot, Superseded(old(saved), t), removed)
      ensures stuck == {} ==>
                forall q :: q in disk <==> q in old(disk) && !Erases(underRoot, Superseded(old(saved), t), q)
    {
      var stale := StaleFiles(saved, t);
      SaveState(Recorded(saved, t));
      removed := DeleteFiles(stale, stuck);
    }

    /** A version change. A failed one leaves state.json, the version and every file but sidecars
        alone; a successful one removes exactly the superseded files. */
    method ChangeOver(t: Target, env: Surroundings) returns (r: Swap, ghost x: Stretch)
      requires Valid()
      modifies this
      ensures Valid() && (!old(updating) ==> !updating) && channel == old(channel)
      ensures Possible(underRoot, old(Snap()), x) && x.target == t && log == old(log) + Logged(old(Snap()), x)
      ensures if r == Swapped then x.Switched? else x.Stopped?
      ensures r == Swapped ==> env.builds && env.starts && env.saves
      ensures r == Raised ==>
                !env.builds || (!env.starts && old(engine).Some? && !env.restarts) || (env.starts && !env.saves)
      ensures t.files != [] && (forall p :: p in t.files ==> p in old(disk) && env.matches(p)) ==>
                (r == Swapped <==> env.builds && env.starts && env.saves)
      ensures t.files != [] && env.enoughStorage && (forall p :: p in t.files ==> env.origin(p).Finishes?) ==>
                (r == Swapped <==> env.builds && env.starts && env.saves)
      ensures r != Swapped ==> saved == old(saved) && version == old(version) && manifestHash == old(manifestHash)
      ensures r == Kept ==> engine == old(engine)
      ensures r == Swapped ==>
                && t.files != [] && engine == Some(t.files[0]) && saved == Recorded(old(saved), t)
                && version == t.version && manifestHash == t.manifestHash
      ensures r == Swapped && env.stuck == {} ==>
                forall q :: q in disk <==>
                  && q in ApplyAll(old(Snap()), x.fetched).disk
                  && !Erases(underRoot, Superseded(old(saved), t), q)
      ensures r == Swapped ==> RecordsOnly(old(saved), t, saved)
      ensures r == Swapped && env.stuck == {} ==>
                RemovesReplaced(underRoot, old(saved), saved, t.alias, ApplyAll(old(Snap()), x.fetched).disk, disk)
    {
      var ok;
      ghost var fetched, removed;
      ok, fetched := EnsureModel(t, env);
      x := Stopped(t, fetched);
      if !ok {
        return Kept, x;
      }
      updating := true;
      r, removed := Switch(t, env);
      if r == Swapped {
        ReplacedAreRemoved(underRoot, old(saved), t, ApplyAll(old(Snap()), fetched).disk, disk, env.stuck);
        x := Switched(t, fetched, removed);
        Regroup(old(log), fetched, [Save(Recorded(old(saved), t))], removed);
      }
      updating := false;
    }

    /** One round of the update loop: the same manifest and lower versions are ignored, so the running
        version never decreases. */
    method PollChannel(offer: Option<Target>, env: Surroundings) returns (r: Option<Swap>, ghost x: Option<Stretch>)
      requires Valid()
      modifies this
      ensures Valid() && version >= old(version) && channel == old(channel) && (!old(updating) ==> !updating)
      ensures r.None? <==> channel.None? || old(updating) || offer.None?
                           || offer.value.manifestHash == old(manifestHash) || offer.value.version < old(version)
      ensures r.None? <==> x.None?
      ensures r.None? ==> log == old(log) && Snap() == old(Snap()) && engine == old(engine)
                          && version == old(version) && manifestHash == old(manifestHash)
      ensures r.Some? ==>
                && Possible(underRoot, old(Snap()), x.value) && x.value.target == offer.value
                && log == old(log) + Logged(old(Snap()), x.value)
                && (if r == Some(Swapped) then x.value.Switched? else x.value.Stopped?)
      ensures r == Some(Swapped) ==> version == offer.value.version && manifestHash == offer.value.manifestHash
      ensures r == Some(Swapped) ==> x.value.target.version >= old(version)
      ensures r != Some(Swapped) ==> version == old(version) && saved == old(saved)
    {
      if channel.None? || updating || offer.None? || offer.value.manifestHash == manifestHash {
        return None, None;
      }
      if offer.value.version < version {
        return None, None;
      }
      var swap;
      ghost var stretch;
      swap, stretch := ChangeOver(offer.value, env);
      r, x := Some(swap), Some(stretch);
    }

    /** Start-up, up to the point where the node serves. Every earlier exit is an exception that ends
        the process. */
    method StartUp(t: Target, followsChannel: bool, env: Surroundings) returns (ok: bool, ghost x: Stretch)
      requires Valid()
      modifies this
      ensures Valid()
      ensures Possible(underRoot, old(Snap()), x) && x.target == t && log == old(log) + Logged(old(Snap()), x)
      ensures if ok then x.Started? else x.Stopped? && saved == old(saved) && version == old(version)
      ensures ok ==>
                && t.files != [] && engine == Some(t.files[0])
                && saved == OnlyChannel(t) && version == t.version && manifestHash == t.manifestHash
                && channel == (if followsChannel then Some(t.alias) else None)
      ensures ok && env.stuck == {} ==>
                forall q :: q in disk <==>
                  && q in ApplyAll(old(Snap()), x.fetched).disk
                  && !Erases(underRoot, Abandoned(old(saved), t), q)
                  && (q in TargetFiles(t) || !underRoot(q) || !IsModelFile(q))
      ensures ok ==> env.builds && env.starts && env.saves
      ensures t.files != [] && (forall p :: p in t.files ==> p in old(disk) && env.matches(p)) ==>
                (ok <==> env.builds && env.starts && env.saves)
      ensures t.files != [] && env.enoughStorage && (forall p :: p in t.files ==> env.origin(p).Finishes?) ==>
                (ok <==> env.builds && env.starts && env.saves)
      ensures ok ==> saved.Keys == {t.alias} && RecordsOnly(map[], t, saved)
      ensures ok && env.stuck == {} ==>
                KeepsOnlyTarget(underRoot, old(saved), t, ApplyAll(old(Snap()), x.fetched).disk, disk)
    {
      ghost var fetched, deleted, swept;
      ok, fetched := EnsureModel(t, env);
      x := Stopped(t, fetched);
      if !ok || !env.builds || !env.starts || !env.saves {
        ok := false;
        return;
      }
      assert disk == ApplyAll(old(Snap()), fetched).disk && Fetched(old(Snap()), t, fetched);
      engine := Some(t.files[0]);
      deleted, swept := KeepOnly(t, env.stuck);
      x := Started(t, fetched, deleted, swept);
      Regroup(old(log), fetched, [Save(OnlyChannel(t))], deleted + swept);
      channel := if followsChannel then Some(t.alias) else None;
      manifestHash, version := t.manifestHash, t.version;
    }

    /** Record the only channel; delete what the others leave, and what nobody owns. */
    method KeepOnly(t: Target, stuck: set<Path>) returns (ghost deleted: seq<Op>, ghost swept: seq<Op>)
      requires Valid()
      modifies this`disk, this`saved, this`log
      ensures Valid() && saved == OnlyChannel(t) && saved.Keys == {t.alias} && RecordsOnly(map[], t, saved)
      ensures log == old(log) + [Save(OnlyChannel(t))] + (deleted + swept)
      ensures Deletions(underRoot, Abandoned(old(saved), t), deleted) && SparesFiles(TargetFiles(t), swept)
      ensures stuck == {} ==>
                && KeepsOnlyTarget(underRoot, old(saved), t, old(disk), disk)
                && forall q :: q in disk <==>
                  && q in old(disk)
                  && !Erases(underRoot, Abandoned(old(saved), t), q)
                  && (q in TargetFiles(t) || !underRoot(q) || !IsModelFile(q))
    {
      var stale := StaleFiles(saved, t);
      var others := OtherFiles(saved, t.alias);
      assert ToSet(stale + others) == Abandoned(saved, t);
      SaveState(OnlyChannel(t));
      deleted := DeleteFiles(stale + others, stuck);
      OnlyOwned(t);
      swept := SweepOrphans(stuck);
      LeftOverIsRemoved(underRoot, old(saved), t, old(disk), disk, stuck);
      Regroup(old(log) + [Save(OnlyChannel(t))], deleted, swept, []);
    }
  }

  lemma Regroup(a: seq<Op>, b: seq<Op>, c: seq<Op>, d: seq<Op>)
    ensures a + b + c + d == a + (b + c + d)
  {
  }

  /** The list that record_channel returns. */
  method StaleFiles(channels: Channels, t: Target) returns (stale: seq<Path>)
    ensures ToSet(stale) == Superseded(channels, t)
    ensures forall p :: p in stale <==> Replaced(channels, Recorded(channels, t), t.alias, p)
  {
    stale := [];
    forall p
      ensures p in Superseded(channels, t) <==> Replaced(channels, Recorded(channels, t), t.alias, p)
    {
      SupersededIsReplaced(channels, t, p);
    }
    if t.alias !in channels {
      assert Superseded(channels, t) == {};
      return;
    }
    var files := channels[t.alias].files;
    for i := 0 to |files|
      invariant ToSet(stale) == ToSet(files[..i]) - Owned(Recorded(channels, t))
    {
      ToSetSnoc(files, i);
      if files[i] !in Owned(Recorded(channels, t)) {
        ghost var before := stale;
        stale := stale + [files[i]];
        assert ToSet(stale) == ToSet(before) + {files[i]};
      }
    }
    assert files[..|files|] == files;
    assert forall p :: p in stale <==> p in ToSet(stale);
  }

  /** The files of every channel but one. */
  method OtherFiles(channels: Channels, alias: Alias) returns (files: seq<Path>)
    ensures ToSet(files) == FilesOfOthers(channels, alias)
  {
    files := [];
    var todo := channels.Keys - {alias};
    while todo != {}
      invariant todo <= channels.Keys - {alias}
      invariant forall p :: p in files <==>
                  exists a :: a in channels && a != alias && a !in todo && p in channels[a].files
      decreases todo
    {
      var a :| a in todo;
      files := files + channels[a].files;
      todo := todo - {a};
    }
  }

  lemma OnlyOwned(t: Target)
    ensures Owned(OnlyChannel(t)) == TargetFiles(t)
  {
    assert t.alias in OnlyChannel(t);
  }

  lemma {:induction false} DownloadsKeepFiles(s: Snapshot, t: Target, ops: seq<Op>, kept: set<Path>)
    requires Downloads(t, ops)
    requires forall f, p :: f in t.files && p in kept ==> p != Part(f) && p != Progress(f)
    ensures forall p :: p in kept && p in s.disk ==> p in ApplyAll(s, ops).disk
  {
    if ops != [] {
      var shorter := ops[..|ops| - 1];
      assert ops[|ops| - 1] in ops && forall op :: op in shorter ==> op in ops;
      DownloadsKeepFiles(s, t, shorter, kept);
    }
  }
}
