/** Where a model's files go. Destinations are named by the repository, the version and twelve digits of
    the manifest's hash; the hash covers the alias, so only colliding digits make two aliases meet. */
module Destinations {
  import opened Changeover
  import opened CrashSafety

  /** A model as the catalogue offers it, with the files of the chosen quantization. */
  datatype Model = Model(alias: Alias, version: int, manifestHash: string, repo: string, files: seq<string>)

  /** The first twelve digits of a hash of the manifest's hash, and numbers in decimal. */
  datatype Spelling = Spelling(short: string -> string, decimal: int -> string)

  /** repo.replace("/", "--"). */
  function Dashed(repo: string): string {
    if repo == "" then "" else (if repo[0] == '/' then "--" else [repo[0]]) + Dashed(repo[1..])
  }

  function VersionDir(sp: Spelling, m: Model): string {
    Dashed(m.repo) + ("/" + ("v" + sp.decimal(m.version) + "-" + sp.short(m.manifestHash)))
  }

  /** model_dest, below the cache root. */
  function ModelDest(sp: Spelling, m: Model, file: string): Path {
    Path(VersionDir(sp, m), file)
  }

  function TargetOf(sp: Spelling, m: Model): (t: Target)
    ensures t.alias == m.alias && |t.files| == |m.files|
    ensures forall i :: 0 <= i < |m.files| ==> t.files[i] == ModelDest(sp, m, m.files[i])
  {
    Target(m.alias, m.version, m.manifestHash,
           seq(|m.files|, i requires 0 <= i < |m.files| => ModelDest(sp, m, m.files[i])))
  }

  lemma {:induction false} DashedHasNoSlash(repo: string)
    ensures '/' !in Dashed(repo)
  {
    if repo != "" {
      DashedHasNoSlash(repo[1..]);
    }
  }

  lemma FirstSlash(a: string, x: string)
    requires '/' !in a
    ensures var s := a + ("/" + x); s[|a|] == '/' && forall i :: 0 <= i < |a| ==> s[i] != '/'
  {
  }

  lemma FirstSlashSplits(a: string, x: string, b: string, y: string)
    requires '/' !in a && '/' !in b && a + ("/" + x) == b + ("/" + y)
    ensures a == b && x == y
  {
    var s, t := a + ("/" + x), b + ("/" + y);
    FirstSlash(a, x);
    FirstSlash(b, y);
    assert a == s[..|a|] && b == t[..|b|];
    assert x == s[|a| + 1..] && y == t[|b| + 1..];
  }

  lemma LastTwelve(d: string, x: string, e: string, y: string)
    requires |x| == |y| && "v" + d + "-" + x == "v" + e + "-" + y
    ensures d == e && x == y
  {
    var s, t := "v" + d + "-" + x, "v" + e + "-" + y;
    assert x == s[|s| - |x|..] && y == t[|t| - |y|..];
    assert d == s[1..|s| - |x| - 1] && e == t[1..|t| - |y| - 1];
  }

  /** Two models use one directory exactly when the digits of their hashes, their versions and their
      repositories are spelt alike. */
  lemma SameDirIff(sp: Spelling, a: Model, b: Model)
    requires |sp.short(a.manifestHash)| == |sp.short(b.manifestHash)|
    ensures VersionDir(sp, a) == VersionDir(sp, b) <==>
              && sp.short(a.manifestHash) == sp.short(b.manifestHash)
              && sp.decimal(a.version) == sp.decimal(b.version)
              && Dashed(a.repo) == Dashed(b.repo)
  {
    DashedHasNoSlash(a.repo);
    DashedHasNoSlash(b.repo);
    if VersionDir(sp, a) == VersionDir(sp, b) {
      FirstSlashSplits(Dashed(a.repo), "v" + sp.decimal(a.version) + "-" + sp.short(a.manifestHash),
                       Dashed(b.repo), "v" + sp.decimal(b.version) + "-" + sp.short(b.manifestHash));
      LastTwelve(sp.decimal(a.version), sp.short(a.manifestHash), sp.decimal(b.version), sp.short(b.manifestHash));
    }
  }

  // ---- models that keep apart --------------------------------------------------------------------

  function PartName(file: string): string {
    file + ".part"
  }

  function ProgressName(file: string): string {
    file + ".mcprogress.json"
  }

  /** Models of different aliases have different digits, and no model file is named like a sidecar. */
  ghost predicate KeptApart(sp: Spelling, models: set<Model>) {
    && (forall m :: m in models ==> |sp.short(m.manifestHash)| == 12)
    && (forall m, n :: m in models && n in models && m.alias != n.alias ==>
         sp.short(m.manifestHash) != sp.short(n.manifestHash))
    && (forall m, n, f :: m in models && n in models && f in m.files ==>
         PartName(f) !in n.files && ProgressName(f) !in n.files)
  }

  ghost function TargetsOf(sp: Spelling, models: set<Model>): set<Target> {
    set m | m in models :: TargetOf(sp, m)
  }

  lemma FileOf(sp: Spelling, m: Model, p: Path)
    requires p in TargetOf(sp, m).files
    ensures p.dir == VersionDir(sp, m) && p.name in m.files
  {
  }

  lemma ModelsApart(sp: Spelling, models: set<Model>, m: Model, n: Model, p: Path)
    requires KeptApart(sp, models) && m in models && n in models && p in TargetOf(sp, m).files
    ensures m.alias != n.alias ==> p !in TargetOf(sp, n).files
    ensures Part(p) !in TargetOf(sp, n).files && Progress(p) !in TargetOf(sp, n).files
  {
    var files := TargetOf(sp, n).files;
    FileOf(sp, m, p);
    SameDirIff(sp, m, n);
    forall q | q in files
      ensures q.dir == VersionDir(sp, n) && q.name in n.files
    {
      FileOf(sp, n, q);
    }
    assert Part(p).name == PartName(p.name) && Progress(p).name == ProgressName(p.name);
  }

  /** Destinations made by model_dest meet the hypothesis of StateJsonNeverDangles. */
  lemma ModelsAreDistinct(sp: Spelling, models: set<Model>)
    requires KeptApart(sp, models)
    ensures CrashSafety.Distinct(TargetsOf(sp, models))
  {
    forall m, n, p | m in models && n in models && p in TargetOf(sp, m).files
      ensures m.alias != n.alias ==> p !in TargetOf(sp, n).files
      ensures Part(p) !in TargetOf(sp, n).files && Progress(p) !in TargetOf(sp, n).files
    {
      ModelsApart(sp, models, m, n, p);
    }
  }

  /** A node that starts from nothing and follows such models, crashing anywhere: state.json never lists
      a file that is not there. */
  lemma ModelsNeverDangle(sp: Spelling, underRoot: Path -> bool, models: set<Model>, disk: set<Path>, life: Life)
    requires KeptApart(sp, models)
    requires Lived(underRoot, Snapshot(disk, map[]), TargetsOf(sp, models), life)
    ensures Listed(After(Snapshot(disk, map[]), life))
  {
    ModelsAreDistinct(sp, models);
    StateJsonNeverDangles(underRoot, Snapshot(disk, map[]), TargetsOf(sp, models), life);
  }

  // ---- models that meet --------------------------------------------------------------------------

  /** Starting b after a shares a file, and so loses it, exactly when the two models are spelt alike in
      digits, version and repository and have a file of the same name. */
  lemma SharedIff(sp: Spelling, underRoot: Path -> bool, a: Model, b: Model)
    requires |sp.short(a.manifestHash)| == |sp.short(b.manifestHash)| && a.alias != b.alias
    requires forall p :: p in TargetOf(sp, b).files ==> underRoot(p)
    ensures Shared(underRoot, OnlyChannel(TargetOf(sp, a)), TargetOf(sp, b)) != {} <==>
              && sp.short(a.manifestHash) == sp.short(b.manifestHash)
              && sp.decimal(a.version) == sp.decimal(b.version)
              && Dashed(a.repo) == Dashed(b.repo)
              && exists f :: f in a.files && f in b.files
  {
    SameDirIff(sp, a, b);
    var t, u := TargetOf(sp, a), TargetOf(sp, b);
    var shared := Shared(underRoot, OnlyChannel(t), u);
    OthersOfOne(t, u.alias);
    if p :| p in shared {
      FileOf(sp, a, p);
      FileOf(sp, b, p);
    }
    if VersionDir(sp, a) == VersionDir(sp, b) {
      if f :| f in a.files && f in b.files {
        var i, j :| 0 <= i < |a.files| && a.files[i] == f && 0 <= j < |b.files| && b.files[j] == f;
        assert t.files[i] == u.files[j];
        assert u.files[j] in shared;
      }
    }
  }

  lemma OthersOfOne(t: Target, alias: Alias)
    requires t.alias != alias
    ensures FilesOfOthers(OnlyChannel(t), alias) == TargetFiles(t)
  {
    assert t.alias in OnlyChannel(t);
  }

  /** Two manifests, under two aliases, whose different hashes agree in the twelve digits: a start-up of
      the second one, with the file already there, deletes the file that it has just recorded. */
  lemma SharedFileIsLost(sp: Spelling, a: Model, b: Model, s: Snapshot)
    requires a.alias != b.alias && a.manifestHash != b.manifestHash
    requires sp.short(a.manifestHash) == sp.short(b.manifestHash)
    requires a.version == b.version && a.repo == b.repo && |a.files| == 1 && a.files == b.files
    requires s == Snapshot({ModelDest(sp, a, a.files[0])}, OnlyChannel(TargetOf(sp, a)))
    ensures var t, file := TargetOf(sp, b), ModelDest(sp, b, b.files[0]);
            && Listed(s) && Fetched(s, t, [])
            && Deletions(p => true, Abandoned(s.saved, t), [Remove(file)])
            && !Listed(ApplyAll(s, [Save(OnlyChannel(t)), Remove(file)]))
  {
    var t, file := TargetOf(sp, b), ModelDest(sp, b, b.files[0]);
    assert file == ModelDest(sp, a, a.files[0]);
    OnlyFile(s, TargetOf(sp, a), t, file);
  }

  lemma OnlyFile(s: Snapshot, u: Target, t: Target, file: Path)
    requires u.alias != t.alias && u.files == t.files == [file] && s == Snapshot({file}, OnlyChannel(u))
    ensures Listed(s) && Fetched(s, t, [])
    ensures Deletions(p => true, Abandoned(s.saved, t), [Remove(file)])
    ensures !Listed(ApplyAll(s, [Save(OnlyChannel(t)), Remove(file)]))
  {
    OthersOfOne(u, t.alias);
    OnlyOwned(t);
    OnlyOwned(u);
    assert t.files[0] in TargetFiles(t) && u.files[0] in TargetFiles(u);
    assert Erases(p => true, Abandoned(s.saved, t), file);
    assert [Save(OnlyChannel(t)), Remove(file)] == [Save(OnlyChannel(t))] + [Remove(file)];
    ApplySnoc(s, [Save(OnlyChannel(t))], Remove(file));
  }

  /** Dashed spells every slash as two dashes, and nothing else differently. */
  lemma {:induction false} DashedSplits(a: string, b: string)
    ensures Dashed(a + "/" + b) == Dashed(a) + "--" + Dashed(b)
    ensures '/' !in a ==> Dashed(a) == a
  {
    if a == "" {
      assert (a + "/" + b)[1..] == b;
    } else {
      DashedSplits(a[1..], b);
      assert (a + "/" + b)[1..] == a[1..] + "/" + b;
      assert a == [a[0]] + a[1..];
    }
  }
}
