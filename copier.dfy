/**
 * The unified copy operation: a 2x2 strategy table indexed by the address kinds of source and
 * destination, its four strategies, and the collision-free name allocator.
 */
module Copier {
  import opened Wrappers
  import opened Strings
  import opened Paths
  import opened Host
  import opened Svn

  // ---------------------------------------------------------------------------------------------
  // Dispatch

  datatype Strategy = FsToFs | FsToVcs | VcsToFs | VcsToVcs

  predicate SourceIsRepository(s: Strategy) {
    s == VcsToFs || s == VcsToVcs
  }

  predicate DestIsRepository(s: Strategy) {
    s == FsToVcs || s == VcsToVcs
  }

  /** The class's lookup table: rows by source kind, columns by destination kind. */
  const FuncTable: seq<seq<Strategy>> := [[FsToFs, FsToVcs], [VcsToFs, VcsToVcs]]

  /** A Python bool used as a tuple index. */
  function Index(b: bool): nat {
    if b then 1 else 0
  }

  /** The table entry at (source is a URL, destination is a URL): the one strategy for this pair of kinds. */
  function SelectStrategy(srcIsUrl: bool, destIsUrl: bool): (s: Strategy)
    ensures SourceIsRepository(s) == srcIsUrl && DestIsRepository(s) == destIsUrl
  {
    FuncTable[Index(srcIsUrl)][Index(destIsUrl)]
  }

  /** Every strategy is the table entry of exactly its own pair of kinds: the table is total and one-to-one. */
  lemma StrategyTableBijective(s: Strategy, srcIsUrl: bool, destIsUrl: bool)
    ensures SelectStrategy(SourceIsRepository(s), DestIsRepository(s)) == s
    ensures SelectStrategy(srcIsUrl, destIsUrl) == s <==>
              (srcIsUrl == SourceIsRepository(s) && destIsUrl == DestIsRepository(s))
  {
  }

  // ---------------------------------------------------------------------------------------------
  // Strategies

  /** What a copy returns and the set of directories that exist afterwards. */
  datatype Effect<T> = Effect(result: Outcome<T>, dirs: set<string>)

  /** `__copyFromVCSToVCS`: one server-side copy of the literal source URL. */
  function CopyFromVcsToVcs(svn: SvnController, env: Env, dest: string, src: string, logMessage: string)
    : (r: Outcome<seq<string>>)
    ensures r.Ok? <==> env.exitOk(svn.CopyCommand(src, dest, logMessage))
    ensures r.Ok? ==> r.value == [dest]
  {
    var url :- svn.Copy(env, src, dest, logMessage);
    Ok([url])
  }

  /** `__copyFromVCSToFS`: one export of the literal source URL. */
  function CopyFromVcsToFs(svn: SvnController, env: Env, dest: string, src: string): (r: Outcome<seq<string>>)
    ensures r.Ok? <==> env.exitOk(svn.ExportCommand(src, dest))
    ensures r.Ok? ==> r.value == [dest]
  {
    var path :- svn.Export(env, src, dest);
    Ok([path])
  }

  /** One import per match, in match order, stopping at the first that fails. */
  function ImportAll(svn: SvnController, env: Env, dest: string, matches: seq<string>, logMessage: string)
    : (r: Outcome<seq<string>>)
    ensures r.Ok? <==> forall m :: m in matches ==> svn.Import(env, dest, m, logMessage).Ok?
    ensures r.Ok? ==> |r.value| == |matches|
    ensures r.Ok? ==> forall i :: 0 <= i < |matches| ==> r.value[i] == ImportTarget(dest, matches[i])
    decreases |matches|
  {
    if matches == [] then Ok([])
    else
      var first := svn.Import(env, dest, matches[0], logMessage);
      if first.Err? then Err(first.error)
      else
        assert forall m :: m in matches <==> m == matches[0] || m in matches[1..];
        var rest := ImportAll(svn, env, dest, matches[1..], logMessage);
        if rest.Err? then Err(rest.error)
        else
          assert forall i :: 1 <= i < |matches| ==> matches[i] == matches[1..][i - 1];
          Ok([first.value] + rest.value)
  }

  /** `__copyFromFSToVCS`: an import of every glob match into the destination URL. */
  function CopyFromFsToVcs(svn: SvnController, env: Env, dest: string, src: string, logMessage: string)
    : Outcome<seq<string>>
  {
    ImportAll(svn, env, dest, env.glob(src), logMessage)
  }

  /** Whether the destination is spelt as a directory, with a trailing separator. */
  predicate NamesDirectory(dest: string) {
    EndsWith(dest, "/") || EndsWith(dest, "\\")
  }

  /** The paths copied so far and the directories that exist. */
  datatype Copied = Copied(paths: seq<string>, dirs: set<string>)

  /**
   * The directories `shutil.copytree(m, target)` recreates below `target`: one for every existing
   * directory under `m`, at the same relative position.
   */
  function TreeCopy(dirs: set<string>, m: string, target: string): set<string> {
    set d | d in dirs && StartsWith(d, m + "/") :: target + d[|m|..]
  }

  /** Every directory of the copied tree lands below `target`, and every sub-directory of `m` has its copy. */
  lemma TreeCopyMirrors(dirs: set<string>, m: string, target: string)
    ensures forall d :: d in TreeCopy(dirs, m, target) ==> StartsWith(d, target + "/")
    ensures forall d :: d in dirs && StartsWith(d, m + "/") ==> target + d[|m|..] in TreeCopy(dirs, m, target)
  {
    forall d | d in TreeCopy(dirs, m, target)
      ensures StartsWith(d, target + "/")
    {
      var e :| e in dirs && StartsWith(e, m + "/") && d == target + e[|m|..];
      assert e[|m|..][0] == e[|m|] == (m + "/")[|m|] == '/';
      assert d[..|target + "/"|] == target + "/";
    }
  }

  /**
   * One match copied into the directory `dest`: a directory is merged into `dest/basename`
   * (`shutil.copytree`, which creates it with the whole tree below it), a file lands at
   * `os.path.join(dest, basename)`.
   */
  function CopyOneInto(c: Copied, dest: string, m: string): Copied {
    if m in c.dirs then
      var target := SepJoin(dest, Basename(m));
      Copied(c.paths + [target], c.dirs + {target} + TreeCopy(c.dirs, m, target))
    else
      Copied(c.paths + [PathJoin(dest, Basename(m))], c.dirs)
  }

  /** The matches copied into `dest`, in order. */
  function CopyAllInto(dirs: set<string>, dest: string, matches: seq<string>): Copied
    decreases |matches|
  {
    if matches == [] then Copied([], dirs)
    else CopyOneInto(CopyAllInto(dirs, dest, matches[..|matches| - 1]), dest, matches[|matches| - 1])
  }

  /**
   * `p` is where the match `m` is copied into `dest`: `dest/basename` as `copytree` is given it for
   * a directory, or `os.path.join(dest, basename)` as `shutil.copy` returns it for a file.
   */
  predicate PlacedUnder(p: string, dest: string, m: string) {
    p == SepJoin(dest, Basename(m)) || p == PathJoin(dest, Basename(m))
  }

  /** A placed path lies under `dest` and carries the match's base name. */
  lemma PlacedUnderShape(p: string, dest: string, m: string)
    requires PlacedUnder(p, dest, m)
    ensures StartsWith(p, dest) && Basename(p) == Basename(m)
  {
    var b := Basename(m);
    BasenameIsLastComponent(m);
    if p == SepJoin(dest, b) {
      BasenameAfterSeparator(dest, b);
    } else {
      BasenamePathJoin(dest, b);
    }
  }

  /**
   * One copied match adds one path, placed under `dest`: `dest/basename` for a directory, which
   * brings the target and the copy of its tree into the directory set, and `os.path.join(dest,
   * basename)` for a file, which leaves the directory set alone.
   */
  lemma CopyOneIntoShape(c: Copied, dest: string, m: string)
    ensures var c' := CopyOneInto(c, dest, m);
      && c.dirs <= c'.dirs
      && (m !in c.dirs ==> c'.dirs == c.dirs)
      && |c'.paths| == |c.paths| + 1 && c'.paths[..|c.paths|] == c.paths
      && PlacedUnder(c'.paths[|c.paths|], dest, m)
      && (m in c.dirs ==> c'.paths[|c.paths|] == SepJoin(dest, Basename(m)))
      && (m in c.dirs ==> c'.dirs == c.dirs + {SepJoin(dest, Basename(m))} + TreeCopy(c.dirs, m, SepJoin(dest, Basename(m))))
      && (m !in c.dirs ==> c'.paths[|c.paths|] == PathJoin(dest, Basename(m)))
  {
  }

  /** Each path in `ps` is placed under `dest` for the match at its position in `ms`. */
  predicate AllPlaced(ps: seq<string>, dest: string, ms: seq<string>)
    decreases |ps|
  {
    |ps| == |ms| &&
    (ps == [] || (AllPlaced(ps[..|ps| - 1], dest, ms[..|ms| - 1]) && PlacedUnder(ps[|ps| - 1], dest, ms[|ms| - 1])))
  }

  /** Placement of the whole list is placement at every position. */
  lemma {:induction false} AllPlacedAt(ps: seq<string>, dest: string, ms: seq<string>)
    requires AllPlaced(ps, dest, ms)
    ensures |ps| == |ms| && forall i :: 0 <= i < |ps| ==> PlacedUnder(ps[i], dest, ms[i])
    decreases |ps|
  {
    if ps != [] {
      var n := |ps| - 1;
      AllPlacedAt(ps[..n], dest, ms[..n]);
      forall i | 0 <= i < n
        ensures PlacedUnder(ps[i], dest, ms[i])
      {
        assert ps[..n][i] == ps[i] && ms[..n][i] == ms[i];
      }
    }
  }

  /** The copy into a directory, entry by entry: one placed path per match, directories only added. */
  lemma {:induction false} CopyAllIntoPlaced(dirs: set<string>, dest: string, matches: seq<string>)
    ensures var c := CopyAllInto(dirs, dest, matches);
      dirs <= c.dirs && AllPlaced(c.paths, dest, matches)
    decreases |matches|
  {
    if matches != [] {
      var init, m := matches[..|matches| - 1], matches[|matches| - 1];
      CopyAllIntoPlaced(dirs, dest, init);
      var c := CopyAllInto(dirs, dest, init);
      CopyOneIntoShape(c, dest, m);
    }
  }

  /**
   * A copy into a directory has one entry per match, in match order; each entry lies under the
   * destination, keeps its match's base name, and directories only get added.
   */
  lemma CopyAllIntoShape(dirs: set<string>, dest: string, matches: seq<string>)
    ensures var c := CopyAllInto(dirs, dest, matches);
      && |c.paths| == |matches|
      && dirs <= c.dirs
      && forall i :: 0 <= i < |matches| ==> PlacedUnder(c.paths[i], dest, matches[i])
  {
    CopyAllIntoPlaced(dirs, dest, matches);
    AllPlacedAt(CopyAllInto(dirs, dest, matches).paths, dest, matches);
  }

  /** `__copyFromFSToFS`, as the value it returns and the directories it leaves behind. */
  function FsToFsEffect(env: Env, dirs: set<string>, dest: string, src: string): Effect<seq<string>> {
    var mustCreate := NamesDirectory(dest) && dest !in dirs;
    if mustCreate && !env.mkdirOk(dest) then Effect(Err(FilesystemIOFailure(dest)), dirs)
    else
      var dirs1 := if mustCreate then dirs + {dest} else dirs;
      var matches := env.glob(src);
      if dest in dirs1 then
        var c := CopyAllInto(dirs1, dest, matches);
        Effect(Ok(c.paths), c.dirs)
      else if matches == [] then Effect(Err(NoGlobMatch(src)), dirs1)
      else if matches[0] in dirs1 then Effect(Err(FilesystemIOFailure(matches[0])), dirs1)
      else Effect(Ok([dest]), dirs1)
  }

  /**
   * The outcomes of a filesystem-to-filesystem copy: a separator-terminated destination that is
   * missing is created first, and the copy fails when that `mkdir` does; a directory destination
   * always succeeds with one entry per match; any other destination is a file name that receives
   * the first match alone.
   */
  lemma FsToFsCases(env: Env, dirs: set<string>, dest: string, src: string)
    ensures var e := FsToFsEffect(env, dirs, dest, src);
      && dirs <= e.dirs
      && (NamesDirectory(dest) && dest !in dirs && env.mkdirOk(dest) ==> dest in e.dirs)
      && (NamesDirectory(dest) && dest !in dirs && !env.mkdirOk(dest) ==> e == Effect(Err(FilesystemIOFailure(dest)), dirs))
      && (dest in dirs || (NamesDirectory(dest) && env.mkdirOk(dest)) ==> e.result.Ok?)
      && (e.result.Ok? && (dest in dirs || NamesDirectory(dest)) ==>
            |e.result.value| == |env.glob(src)|
            && forall i :: 0 <= i < |env.glob(src)| ==>
                 PlacedUnder(e.result.value[i], dest, env.glob(src)[i]))
      && (dest !in dirs && !NamesDirectory(dest) ==>
            e.dirs == dirs
            && e.result == (if env.glob(src) == [] then Err(NoGlobMatch(src))
                            else if env.glob(src)[0] in dirs then Err(FilesystemIOFailure(env.glob(src)[0]))
                            else Ok([dest])))
  {
    var mustCreate := NamesDirectory(dest) && dest !in dirs;
    var dirs1 := if mustCreate then dirs + {dest} else dirs;
    CopyAllIntoShape(dirs1, dest, env.glob(src));
  }

  /** `__copyFromFSToFS`, step by step: create the directory if asked to, then copy the matches. */
  method CopyFromFsToFs(env: Env, dirs: set<string>, dest: string, src: string)
    returns (r: Outcome<seq<string>>, dirs': set<string>)
    ensures Effect(r, dirs') == FsToFsEffect(env, dirs, dest, src)
  {
    var retlist: seq<string> := [];
    dirs' := dirs;
    if NamesDirectory(dest) && dest !in dirs' {
      if !env.mkdirOk(dest) {
        return Err(FilesystemIOFailure(dest)), dirs';
      }
      dirs' := dirs' + {dest};
    }
    var matches := env.glob(src);
    if dest in dirs' {
      ghost var dirs1 := dirs';
      var i := 0;
      while i < |matches|
        invariant 0 <= i <= |matches|
        invariant Copied(retlist, dirs') == CopyAllInto(dirs1, dest, matches[..i])
      {
        var srcpath := matches[i];
        assert matches[..i + 1][..i] == matches[..i];
        if srcpath in dirs' {
          var target := SepJoin(dest, Basename(srcpath));
          retlist := retlist + [target];
          dirs' := dirs' + {target} + TreeCopy(dirs', srcpath, target);
        } else {
          retlist := retlist + [PathJoin(dest, Basename(srcpath))];
        }
        i := i + 1;
      }
      assert matches[..|matches|] == matches;
    } else {
      if matches == [] {
        return Err(NoGlobMatch(src)), dirs';
      }
      if matches[0] in dirs' {
        return Err(FilesystemIOFailure(matches[0])), dirs';
      }
      retlist := [dest];
    }
    r := Ok(retlist);
  }

  /** `copy`: the strategy the table selects, applied. */
  function CopyEffect(svn: SvnController, env: Env, dirs: set<string>, dest: string, src: string, logMessage: string)
    : Effect<seq<string>>
  {
    match SelectStrategy(URLCheck(src), URLCheck(dest))
    case FsToFs => FsToFsEffect(env, dirs, dest, src)
    case FsToVcs => Effect(CopyFromFsToVcs(svn, env, dest, src, logMessage), dirs)
    case VcsToFs =>
      var r := CopyFromVcsToFs(svn, env, dest, src);
      Effect(r, if r.Ok? then dirs + env.made(svn.ExportCommand(src, dest)) else dirs)
    case VcsToVcs => Effect(CopyFromVcsToVcs(svn, env, dest, src, logMessage), dirs)
  }

  method Copy(svn: SvnController, env: Env, dirs: set<string>, dest: string, src: string, logMessage: string)
    returns (r: Outcome<seq<string>>, dirs': set<string>)
    ensures Effect(r, dirs') == CopyEffect(svn, env, dirs, dest, src, logMessage)
  {
    match SelectStrategy(URLCheck(src), URLCheck(dest))
    case FsToFs =>
      r, dirs' := CopyFromFsToFs(env, dirs, dest, src);
    case FsToVcs =>
      r, dirs' := CopyFromFsToVcs(svn, env, dest, src, logMessage), dirs;
    case VcsToFs =>
      r := CopyFromVcsToFs(svn, env, dest, src);
      dirs' := if r.Ok? then dirs + env.made(svn.ExportCommand(src, dest)) else dirs;
    case VcsToVcs =>
      r, dirs' := CopyFromVcsToVcs(svn, env, dest, src, logMessage), dirs;
  }

  /**
   * A repository source is one exact location: it reaches the client unchanged, is never
   * globbed and yields the destination as the single result. Only a successful export touches
   * the local directories, adding those it leaves on disk.
   */
  lemma CopyFromRepository(svn: SvnController, env: Env, dirs: set<string>, dest: string, src: string,
                           logMessage: string, otherGlob: string -> seq<string>)
    requires URLCheck(src)
    ensures var e := CopyEffect(svn, env, dirs, dest, src, logMessage);
      && e == CopyEffect(svn, env.(glob := otherGlob), dirs, dest, src, logMessage)
      && e.dirs == (if e.result.Ok? && !URLCheck(dest) then dirs + env.made(svn.ExportCommand(src, dest)) else dirs)
      && (e.result.Ok? ==> e.result.value == [dest])
      && (e.result.Ok? <==> env.exitOk(if URLCheck(dest) then svn.CopyCommand(src, dest, logMessage)
                                       else svn.ExportCommand(src, dest)))
  {
  }

  /** A filesystem source into a repository: one imported URL per glob match, in glob order. */
  lemma CopyToRepository(svn: SvnController, env: Env, dirs: set<string>, dest: string, src: string,
                         logMessage: string)
    requires !URLCheck(src) && URLCheck(dest)
    ensures var e := CopyEffect(svn, env, dirs, dest, src, logMessage);
      && e.dirs == dirs
      && (e.result.Ok? ==>
            |e.result.value| == |env.glob(src)|
            && forall i :: 0 <= i < |env.glob(src)| ==>
                 e.result.value[i] == SepJoin(dest, Basename(env.glob(src)[i])))
  {
  }

  // ---------------------------------------------------------------------------------------------
  // Collision-free names

  /** The k-th name tried: `name` itself first, then `name_2`, `name_3`, ... */
  function Candidate(name: string, k: nat): string {
    if k <= 1 then name else name + "_" + NatToString(k)
  }

  lemma CandidateInjective(name: string, i: nat, j: nat)
    requires 1 <= i && 1 <= j && Candidate(name, i) == Candidate(name, j)
    ensures i == j
  {
    if i >= 2 && j >= 2 {
      var n := |name| + 1;
      assert Candidate(name, i)[n..] == NatToString(i);
      assert Candidate(name, j)[n..] == NatToString(j);
      NatToStringInjective(i, j);
    }
  }

  /** The names tried before the k-th. */
  function Tried(name: string, k: nat): set<string> {
    set j | 1 <= j < k :: Candidate(name, j)
  }

  lemma TriedStep(name: string, k: nat)
    requires k >= 1
    ensures Candidate(name, k) !in Tried(name, k)
    ensures Tried(name, k + 1) == Tried(name, k) + {Candidate(name, k)}
  {
    forall j | 1 <= j < k
      ensures Candidate(name, j) != Candidate(name, k)
    {
      if Candidate(name, j) == Candidate(name, k) {
        CandidateInjective(name, j, k);
      }
    }
  }

  /** The index of the first candidate from the k-th on that is not taken; the list being finite, there is one. */
  function VacantIndexFrom(taken: set<string>, name: string, k: nat): (r: nat)
    requires k >= 1
    ensures r >= k && Candidate(name, r) !in taken
    ensures forall j :: k <= j < r ==> Candidate(name, j) in taken
    decreases taken - Tried(name, k)
  {
    if Candidate(name, k) !in taken then k
    else
      TriedStep(name, k);
      VacantIndexFrom(taken, name, k + 1)
  }

  function VacantIndex(namelist: seq<string>, name: string): nat {
    VacantIndexFrom((set x | x in namelist), name, 1)
  }

  /**
   * The name the allocator settles on: never in the list, `name` itself exactly when `name` is not
   * listed, otherwise `name_k` for the least k >= 2 whose candidate is not listed.
   */
  function VacantName(namelist: seq<string>, name: string): (r: string)
    ensures r !in namelist
    ensures r == name <==> name !in namelist
    ensures name in namelist ==>
              var k := VacantIndex(namelist, name);
              && k >= 2 && r == name + "_" + NatToString(k)
              && forall j :: 2 <= j < k ==> name + "_" + NatToString(j) in namelist
  {
    var k := VacantIndex(namelist, name);
    assert k >= 2 ==> |Candidate(name, k)| > |name|;
    assert forall j :: 2 <= j < k ==> Candidate(name, j) == name + "_" + NatToString(j);
    Candidate(name, k)
  }

  /** A higher suffix already in use does not move the counter: it still starts at 2. */
  lemma VacantNameStartsAtTwo(namelist: seq<string>, name: string)
    requires name in namelist && name + "_2" !in namelist
    ensures VacantName(namelist, name) == name + "_2"
  {
    var taken := set x | x in namelist;
    var k := VacantIndexFrom(taken, name, 1);
    assert Candidate(name, 1) in taken;
    assert Candidate(name, 2) == name + "_2" by {
      assert NatToString(2) == "2";
    }
  }

  /** With `name` and `name_2` listed and `name_3` not, the result is `name_3`. */
  lemma VacantNameThird(namelist: seq<string>, name: string)
    requires name in namelist && name + "_2" in namelist && name + "_3" !in namelist
    ensures VacantName(namelist, name) == name + "_3"
  {
    var taken := set x | x in namelist;
    assert NatToString(2) == "2" && NatToString(3) == "3";
    assert name + "_" + "2" == name + "_2" && name + "_" + "3" == name + "_3";
    assert Candidate(name, 1) in taken;
    assert Candidate(name, 2) in taken;
    assert Candidate(name, 3) !in taken;
    assert VacantIndexFrom(taken, name, 3) == 3;
    assert VacantIndexFrom(taken, name, 2) == 3;
  }

  /** The listed entries that start with `name`, each with one extension stripped, in listing order. */
  function StrippedNames(raw: seq<string>, name: string): (r: seq<string>)
    ensures |r| <= |raw|
    ensures forall s :: s in r <==> exists x :: x in raw && StartsWith(x, name) && StripExt(x) == s
  {
    if raw == [] then []
    else
      var rest := StrippedNames(raw[1..], name);
      assert forall x :: x in raw <==> x == raw[0] || x in raw[1..];
      (if StartsWith(raw[0], name) then [StripExt(raw[0])] else []) + rest
  }

  /** Two listed entries that both start with `name` strip to their two roots, in order. */
  lemma StrippedNamesPair(x: string, y: string, name: string)
    requires StartsWith(x, name) && StartsWith(y, name)
    ensures StrippedNames([x, y], name) == [StripExt(x), StripExt(y)]
  {
    StrippedNamesCons(y, [], name);
    StrippedNamesCons(x, [y], name);
    assert [y] == [y] + [];
    assert [x, y] == [x] + [y];
  }

  lemma StrippedNamesCons(x: string, rest: seq<string>, name: string)
    ensures StrippedNames([x] + rest, name) ==
              (if StartsWith(x, name) then [StripExt(x)] else []) + StrippedNames(rest, name)
  {
    assert ([x] + rest)[1..] == rest;
  }

  /**
   * `getVacantName`, as the value it returns: the entries at the location (`svn ls` for a
   * repository URL, `os.listdir` otherwise), stripped, then searched.
   */
  function VacantNameAt(svn: SvnController, env: Env, path: string, name: string): Outcome<string> {
    var raw :- if URLCheck(path) then svn.List(env, path)
               else if env.listDir(path).Some? then Ok(env.listDir(path).value)
               else Err(FilesystemIOFailure(path));
    Ok(VacantName(StrippedNames(raw, name), name))
  }

  /**
   * The allocator asks exactly one source: a repository URL is never looked up on the filesystem,
   * and a filesystem path never reaches Subversion.
   */
  lemma VacantNameAtSource(svn: SvnController, env: Env, path: string, name: string,
                           otherListDir: string -> Option<seq<string>>,
                           otherExitOk: seq<string> -> bool, otherStdout: seq<string> -> seq<string>)
    ensures URLCheck(path) ==>
      VacantNameAt(svn, env, path, name) == VacantNameAt(svn, env.(listDir := otherListDir), path, name)
    ensures !URLCheck(path) ==>
      VacantNameAt(svn, env, path, name) == VacantNameAt(svn, env.(exitOk := otherExitOk, stdout := otherStdout), path, name)
  {
  }

  /**
   * The listing step of `getVacantName`: `svn ls` for a repository URL; otherwise `os.listdir`,
   * which fails naming the path when it raises.
   */
  method ListEntries(svn: SvnController, env: Env, path: string) returns (r: Outcome<seq<string>>)
    ensures URLCheck(path) ==> r == svn.List(env, path)
    ensures !URLCheck(path) ==> (r.Ok? <==> env.listDir(path).Some?)
    ensures !URLCheck(path) && r.Ok? ==> r.value == env.listDir(path).value
    ensures !URLCheck(path) && r.Err? ==> r.error == FilesystemIOFailure(path)
  {
    if URLCheck(path) {
      r := svn.List(env, path);
    } else {
      var listed := env.listDir(path);
      if listed.None? {
        return Err(FilesystemIOFailure(path));
      }
      r := Ok(listed.value);
    }
  }

  /** The search loop of `getVacantName`: `name`, then `name_2`, `name_3`, ... until one is free. */
  method FirstVacant(namelist: seq<string>, name: string) returns (processedName: string)
    ensures processedName == VacantName(namelist, name)
  {
    ghost var taken := set x | x in namelist;
    processedName := name;
    var incrementer := 2;
    while processedName in namelist
      invariant incrementer >= 2
      invariant processedName == Candidate(name, incrementer - 1)
      invariant VacantIndexFrom(taken, name, incrementer - 1) == VacantIndex(namelist, name)
      decreases taken - Tried(name, incrementer - 1)
    {
      TriedStep(name, incrementer - 1);
      processedName := name + "_" + NatToString(incrementer);
      incrementer := incrementer + 1;
    }
  }

  /** `getVacantName`: list the location, strip the matching entries, then search. */
  method GetVacantName(svn: SvnController, env: Env, path: string, name: string) returns (r: Outcome<string>)
    ensures r == VacantNameAt(svn, env, path, name)
  {
    var rawNameList := ListEntries(svn, env, path);
    if rawNameList.Err? {
      return Err(rawNameList.error);
    }
    var namelist := StrippedNames(rawNameList.value, name);
    var processedName := FirstVacant(namelist, name);
    r := Ok(processedName);
  }

  /** A listing with no entry that starts with the name keeps the name. */
  lemma VacantNameFreeExample()
    ensures VacantName(StrippedNames(["other.zip"], "pkg"), "pkg") == "pkg"
  {
    assert !StartsWith("other.zip", "pkg") by { assert "other.zip"[0] == 'o'; }
    assert ["other.zip"][1..] == [];
    assert StrippedNames(["other.zip"], "pkg") == [];
  }

  /** An archive `base.zip` strips to `base`, for a non-empty base free of '.' and '/'. */
  lemma StripExtZip(base: string)
    requires base != [] && '.' !in base && '/' !in base
    ensures StripExt(base + ".zip") == base
  {
    var p := base + ".zip";
    assert p[|base|] == '.';
    assert forall i :: |base| < i < |p| ==> p[i] != '.' && p[i] != '/';
    assert forall i :: 0 <= i < |base| ==> p[i] == base[i];
    assert LastIndexOf(p, '.') == |base|;
    assert LastIndexOf(p, '/') == -1;
    assert p[0] != '.';
    assert p[..|base|] == base;
  }

  /** `name` with a suffix appended starts with `name`, and is free of '.' and '/' when both parts are. */
  lemma SuffixedName(name: string, suffix: string)
    requires '.' !in name && '/' !in name && '.' !in suffix && '/' !in suffix
    ensures StartsWith(name + suffix, name)
    ensures '.' !in name + suffix && '/' !in name + suffix
  {
    assert (name + suffix)[..|name|] == name;
  }

  /** Two archives of entries starting with `name` strip to their bases, in listing order. */
  lemma ArchiveListing(base1: string, base2: string, name: string)
    requires base1 != [] && '.' !in base1 && '/' !in base1 && StartsWith(base1, name)
    requires base2 != [] && '.' !in base2 && '/' !in base2 && StartsWith(base2, name)
    ensures StrippedNames([base1 + ".zip", base2 + ".zip"], name) == [base1, base2]
  {
    StripExtZip(base1);
    StripExtZip(base2);
    assert (base1 + ".zip")[..|name|] == base1[..|name|];
    assert (base2 + ".zip")[..|name|] == base2[..|name|];
    StrippedNamesPair(base1 + ".zip", base2 + ".zip", name);
  }

  /** A taken name gets the suffix 2: `name.zip` listed gives `name_2`. */
  lemma VacantNameTakenExample(name: string)
    requires name != [] && '.' !in name && '/' !in name
    ensures VacantName(StrippedNames([name + ".zip"], name), name) == name + "_2"
  {
    StripExtZip(name);
    assert (name + ".zip")[..|name|] == name;
    StrippedNamesCons(name + ".zip", [], name);
    assert [name + ".zip"] == [name + ".zip"] + [];
    VacantNameStartsAtTwo([name], name);
  }

  /** With `name.zip` and `name_2.zip` listed the counter moves on to 3. */
  lemma VacantNameSecondExample(name: string)
    requires name != [] && '.' !in name && '/' !in name
    ensures VacantName(StrippedNames([name + ".zip", name + "_2" + ".zip"], name), name) == name + "_3"
  {
    SuffixedName(name, "_2");
    ArchiveListing(name, name + "_2", name);
    assert (name + "_3")[|name| + 1] == '3' != (name + "_2")[|name| + 1];
    assert name + "_3" !in [name, name + "_2"];
    VacantNameThird([name, name + "_2"], name);
  }

  /** A higher suffix in use (`name_5.zip`) does not skip the counter past 2. */
  lemma VacantNameGapExample(name: string)
    requires name != [] && '.' !in name && '/' !in name
    ensures VacantName(StrippedNames([name + ".zip", name + "_5" + ".zip"], name), name) == name + "_2"
  {
    SuffixedName(name, "_5");
    ArchiveListing(name, name + "_5", name);
    assert (name + "_2")[|name| + 1] == '2' != (name + "_5")[|name| + 1];
    assert name + "_2" !in [name, name + "_5"];
    VacantNameStartsAtTwo([name, name + "_5"], name);
  }
}
