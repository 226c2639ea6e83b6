/** Unpacking an ISO 9660 image into a mounted volume, with rollback on failure or cancellation. */
module IsoExtract {
  import opened Arithmetic
  import opened CStrings
  import opened FileTrees

  const PATH_MAX := 4096
  const MAX_DEPTH := 100

  datatype IsoResult =
    | IsoOk | FileNotFound | NotIso | ArchiveError | ExtractFailed | NoBootInfo

  /**
    The session's cancel flag. Another thread may set it at any moment: `schedule(n)` says
    whether it did so before the n-th time the flag is read. Nothing ever clears it.
   */
  class CancelFlag {
    var cancelled: bool
    const schedule: nat -> bool
    var readCount: nat
    /** What each read so far saw. */
    ghost var log: seq<bool>

    ghost predicate Valid()
      reads this
    {
      forall k :: 0 <= k < |log| && log[k] ==> cancelled
    }

    constructor (schedule: nat -> bool)
      ensures Valid() && !cancelled && log == [] && this.schedule == schedule && readCount == 0
    {
      this.schedule, cancelled, readCount, log := schedule, false, 0, [];
    }

    /** Someone set the flag between two reads, the first one included. */
    ghost predicate SetBetween(first: nat, last: nat) {
      exists k :: first <= k < last && schedule(k)
    }

    method Read() returns (seen: bool)
      requires Valid()
      modifies this
      ensures Valid() && log == old(log) + [seen] && readCount == old(readCount) + 1
      ensures cancelled == seen && seen == (old(cancelled) || schedule(old(readCount)))
    {
      if schedule(readCount) {
        cancelled := true;
      }
      readCount := readCount + 1;
      log := log + [cancelled];
      seen := cancelled;
    }

    /** A read outside any callback, which the log does not keep. */
    method Peek() returns (seen: bool)
      requires Valid()
      modifies this`cancelled, this`readCount
      ensures Valid() && cancelled == seen && (old(cancelled) ==> seen)
    {
      if schedule(readCount) {
        cancelled := true;
      }
      readCount := readCount + 1;
      seen := cancelled;
    }

    method Cancel()
      requires Valid()
      modifies this`cancelled
      ensures Valid() && cancelled
    {
      cancelled := true;
    }
  }

  // ---------- the list of files to take back ----------

  class ExtractedFiles {
    var files: array<string>
    var count: nat

    ghost predicate Valid()
      reads this
    {
      0 < files.Length && count <= files.Length
    }

    ghost function Contents(): seq<string>
      requires Valid()
      reads this, files
    {
      files[..count]
    }

    constructor ()
      ensures Valid() && fresh(files) && Contents() == []
    {
      files := new string[256](_ => "");
      count := 0;
    }

    method Add(path: string)
      requires Valid()
      modifies this, files
      ensures Valid() && (files == old(files) || fresh(files))
      ensures Contents() == old(Contents()) + [path]
    {
      if count >= files.Length {
        var grown := new string[2 * files.Length](_ => "");
        for i := 0 to count
          modifies grown
          invariant grown[..i] == files[..i]
        {
          grown[i] := files[i];
        }
        files := grown;
      }
      files[count] := path;
      count := count + 1;
    }
  }

  /** Some listed path names the node `p`. */
  ghost predicate Tracked(files: seq<string>, p: Path) {
    exists i :: 0 <= i < |files| && Resolve(files[i]) == p
  }

  ghost predicate Leaf(nodes: map<Path, Node>, p: Path) {
    p in nodes && nodes[p] != Dir
  }

  /**
    Removes every listed file, last one first. What it removes was listed; what is listed and
    still there is a refusal of the system. Running it twice is the same as running it once.
   */
  method RemoveAll(list: ExtractedFiles, tree: FileTree)
    requires list.Valid()
    modifies tree
    ensures forall p :: p in tree.nodes ==> p in old(tree.nodes) && tree.nodes[p] == old(tree.nodes)[p]
    ensures forall p :: p in old(tree.nodes) && p !in tree.nodes ==>
              Leaf(old(tree.nodes), p) && Tracked(list.Contents(), p)
    ensures forall p :: Leaf(tree.nodes, p) && Tracked(list.Contents(), p) ==> p in tree.refused
    ensures old(tree.refused) <= tree.refused && tree.clock >= old(tree.clock)
  {
    ghost var files := list.Contents();
    var i := list.count;
    while i > 0
      invariant 0 <= i <= list.count == |files|
      invariant forall p :: p in tree.nodes ==> p in old(tree.nodes) && tree.nodes[p] == old(tree.nodes)[p]
      invariant forall p :: p in old(tree.nodes) && p !in tree.nodes ==>
                  Leaf(old(tree.nodes), p) && Tracked(files, p)
      invariant forall j :: i <= j < |files| && Leaf(tree.nodes, Resolve(files[j])) ==>
                  Resolve(files[j]) in tree.refused
      invariant old(tree.refused) <= tree.refused && tree.clock >= old(tree.clock)
    {
      i := i - 1;
      assert Resolve(files[i]) == Resolve(list.files[i]);
      tree.Unlink(Resolve(list.files[i]));
    }
  }

  // ---------- directories ----------

  /** A path that is refused for its length or the number of its components. */
  predicate TooDeep(path: string) {
    |path| >= 4096 || |Tokens(path, "")| >= 100
  }

  ghost predicate LeafOnTheWay(nodes: map<Path, Node>, path: Path) {
    exists q :: q <= path && Leaf(nodes, q)
  }

  ghost predicate IsDir(nodes: map<Path, Node>, p: Path) {
    p in nodes && nodes[p] == Dir
  }

  /** What it takes to get a directory there: it is there, or neither its name nor what is on the way forbids it. */
  ghost predicate CanHold(nodes: map<Path, Node>, path: string) {
    |path| < 4096 && (IsDir(nodes, Resolve(path)) || (!TooDeep(path) && !LeafOnTheWay(nodes, Resolve(path))))
  }

  /**
    mkdir -p without following links; refuses paths of 100 components or more. It succeeds exactly
    when the directory can be there and the system refuses nothing.
   */
  method EnsureDirectory(tree: FileTree, path: string) returns (ok: bool)
    requires path != "" && path[0] == '/'
    requires IsDir(tree.nodes, []) && Rooted(tree.nodes)
    modifies tree`nodes, tree`clock
    ensures OnlyNewDirs(old(tree.nodes), tree.nodes, Resolve(path)) && Rooted(tree.nodes)
    ensures ok ==> IsDir(tree.nodes, Resolve(path))
    ensures tree.clock >= old(tree.clock)
    ensures ok <==> CanHold(old(tree.nodes), path) && !tree.Denied(old(tree.clock))
  {
    NoNewDirs(tree.nodes, Resolve(path));
    if |path| >= PATH_MAX {
      return false;
    }
    if Resolve(path) in tree.nodes {
      return tree.nodes[Resolve(path)] == Dir;
    }
    hide OnlyNewDirs, LeafOnTheWay, DropDots, Tokens, Rooted, FileTree.Denied;
    NothingDenied(tree);
    RootResolves();
    ok := Climb(tree, path, Tokens(path, ""), tree.nodes, tree.clock);
    if ok {
      WayIsClear(old(tree.nodes), tree.nodes, Resolve(path));
    }
  }

  /** The way up to `here` has been made, for the sake of `path`, and nothing was refused. */
  ghost predicate MadeTo(tree: FileTree, here: Path, before: map<Path, Node>, path: Path, since: nat)
    reads tree
  {
    && OnlyNewDirs(before, tree.nodes, path) && Rooted(tree.nodes) && IsDir(tree.nodes, here)
    && tree.clock >= since && !tree.Denied(since)
  }

  /** The loop over the components of a path. */
  method Climb(tree: FileTree, path: string, tokens: seq<string>, ghost before: map<Path, Node>, ghost since: nat)
    returns (ok: bool)
    requires tokens == Tokens(path, "") && MadeTo(tree, Resolve("/"), before, Resolve(path), since)
    modifies tree`nodes, tree`clock
    ensures ok <==> |tokens| < MAX_DEPTH && !tree.Denied(since) && !LeafOnTheWay(before, Resolve(path))
    ensures OnlyNewDirs(before, tree.nodes, Resolve(path)) && Rooted(tree.nodes) && tree.clock >= since
    ensures ok ==> MadeTo(tree, Resolve(path), before, Resolve(path), since)
  {
    hide MadeTo, LeafOnTheWay, DropDots, Tokens, Resolve;
    var working := "/";
    var depth := 0;
    NoComponents(tokens);
    ok := true;
    while depth < |tokens| && depth < MAX_DEPTH && ok
      invariant depth <= |tokens| && working != "" && (|working| == 1 ==> working == "/")
      invariant ok ==> Resolve(working) == DropDots(tokens[..depth])
      invariant ok ==> MadeTo(tree, Resolve(working), before, Resolve(path), since)
      invariant !ok ==> Stuck(tree, before, Resolve(path), since)
    {
      var longer := (if |working| > 1 then working + "/" else working) + tokens[depth];
      StepDown(path, tokens, working, depth, longer);
      ok := MakeOne(tree, Resolve(longer), Resolve(working), before, Resolve(path), since);
      working := longer;
      depth := depth + 1;
    }
    if ok {
      AllComponents(path, tokens);
      MadeMeans(tree, Resolve(working), before, Resolve(path), since);
      ok := depth < MAX_DEPTH;
      if ok {
        assert tokens[..depth] == tokens;
        WayIsClear(before, tree.nodes, Resolve(path));
      }
    }
  }

  /** The climb could not go on. */
  ghost predicate Stuck(tree: FileTree, before: map<Path, Node>, path: Path, since: nat)
    reads tree
  {
    && OnlyNewDirs(before, tree.nodes, path) && Rooted(tree.nodes) && tree.clock >= since
    && (tree.Denied(since) || LeafOnTheWay(before, path))
  }

  lemma MadeMeans(tree: FileTree, here: Path, before: map<Path, Node>, path: Path, since: nat)
    requires MadeTo(tree, here, before, path, since)
    ensures OnlyNewDirs(before, tree.nodes, path) && Rooted(tree.nodes) && IsDir(tree.nodes, here)
    ensures tree.clock >= since && !tree.Denied(since)
  {
  }

  lemma NoComponents(tokens: seq<string>)
    ensures Resolve("/") == DropDots(tokens[..0])
  {
  }

  lemma AllComponents(path: string, tokens: seq<string>)
    requires tokens == Tokens(path, "")
    ensures Resolve(path) == DropDots(tokens)
  {
  }

  lemma NothingDenied(tree: FileTree)
    ensures !tree.Denied(tree.clock)
  {
  }

  /** Where there is a directory now, nothing was on the way to it. */
  lemma WayIsClear(before: map<Path, Node>, after: map<Path, Node>, path: Path)
    requires OnlyNewDirs(before, after, path) && Rooted(after) && IsDir(after, path)
    ensures !LeafOnTheWay(before, path)
  {
    forall q | q <= path
      ensures !Leaf(before, q)
    {
      assert q == path || Above(q, path);
    }
  }

  /** Makes one directory on the way to `path`, right below one that is there, unless it is there, too. */
  method MakeOne(tree: FileTree, here: Path, ghost up: Path, ghost before: map<Path, Node>, ghost path: Path, ghost since: nat)
    returns (there: bool)
    requires MadeTo(tree, up, before, path, since) && here <= path && RightBelow(up, here)
    modifies tree`nodes, tree`clock
    ensures if there then MadeTo(tree, here, before, path, since) else Stuck(tree, before, path, since)
  {
    hide OnlyNewDirs, LeafOnTheWay, Rooted;
    ghost var nodes := tree.nodes;
    if here in tree.nodes {
      there := tree.nodes[here] == Dir;
      if !there {
        LeafSeen(before, nodes, path, here);
      }
    } else {
      there := tree.Mkdir(here);
      OneMoreDir(before, nodes, path, here);
      PutRooted(nodes, here, Dir);
    }
  }

  lemma NoNewDirs(nodes: map<Path, Node>, path: Path)
    ensures OnlyNewDirs(nodes, nodes, path)
    ensures path in nodes && nodes[path] != Dir ==> LeafOnTheWay(nodes, path)
  {
    assert path in nodes && nodes[path] != Dir ==> Leaf(nodes, path);
  }

  lemma OneMoreDir(before: map<Path, Node>, nodes: map<Path, Node>, path: Path, here: Path)
    requires OnlyNewDirs(before, nodes, path) && here !in nodes && here <= path
    ensures OnlyNewDirs(before, nodes[here := Dir], path)
  {
  }

  lemma LeafSeen(before: map<Path, Node>, nodes: map<Path, Node>, path: Path, here: Path)
    requires OnlyNewDirs(before, nodes, path) && Leaf(nodes, here) && here <= path
    ensures LeafOnTheWay(before, path)
  {
    assert Leaf(before, here);
  }

  /** One more component of the path names one more node on the way to its end. */
  lemma StepDown(path: string, tokens: seq<string>, working: string, k: nat, longer: string)
    requires tokens == Tokens(path, "") && k < |tokens|
    requires working != "" && (|working| == 1 ==> working == "/")
    requires longer == (if |working| > 1 then working + "/" else working) + tokens[k]
    requires Resolve(working) == DropDots(tokens[..k])
    ensures Resolve(longer) == DropDots(tokens[..k + 1])
    ensures Resolve(longer) <= Resolve(path)
    ensures RightBelow(Resolve(working), Resolve(longer))
  {
    hide DropDots, Tokens, Resolve;
    NameResolves(path, tokens, k);
    StepNames(tokens, k);
    LongerResolves(working, tokens[k], longer);
    OneName(tokens[k]);
  }

  /** The same node, or one right below it. */
  predicate RightBelow(up: Path, down: Path) {
    down == up || (down != [] && down[..|down| - 1] == up)
  }

  lemma OneName(name: string)
    ensures |DropDots([name])| <= 1
  {
    assert [name][1..] == [];
  }

  lemma NameResolves(path: string, tokens: seq<string>, k: nat)
    requires tokens == Tokens(path, "") && k < |tokens|
    ensures Resolve(tokens[k]) == DropDots([tokens[k]]) && Resolve(path) == DropDots(tokens)
  {
    hide DropDots;
    TokensAreNames(path, "", k);
    TokensOfName(tokens[k], "");
    assert "" + tokens[k] == tokens[k];
  }

  lemma LongerResolves(working: string, name: string, longer: string)
    requires working != "" && (|working| == 1 ==> working == "/")
    requires longer == (if |working| > 1 then working + "/" else working) + name
    ensures Resolve(longer) == Resolve(working) + Resolve(name)
  {
    RootResolves();
    hide Resolve;
    if |working| > 1 {
      ResolveJoin(working, name);
    } else {
      assert "" + "/" + name == "/" + name;
      ResolveJoin("", name);
    }
  }

  lemma RootResolves()
    ensures Resolve("/") == [] && Resolve("") == []
  {
  }

  lemma StepNames(tokens: seq<string>, k: nat)
    requires k < |tokens|
    ensures DropDots(tokens[..k + 1]) == DropDots(tokens[..k]) + DropDots([tokens[k]])
    ensures DropDots(tokens[..k + 1]) <= DropDots(tokens)
  {
    SplitAt(tokens, k);
    hide DropDots;
    DropDotsOneMore(tokens[..k], tokens[k], tokens[k + 1..]);
  }

  lemma SplitAt(tokens: seq<string>, k: nat)
    requires k < |tokens|
    ensures tokens[..k + 1] == tokens[..k] + [tokens[k]]
    ensures tokens == tokens[..k] + [tokens[k]] + tokens[k + 1..]
  {
  }

  lemma DropDotsOneMore(front: seq<string>, next: string, rest: seq<string>)
    ensures DropDots(front + [next]) == DropDots(front) + DropDots([next])
    ensures DropDots(front + [next]) <= DropDots(front + [next] + rest)
  {
    hide DropDots;
    DropDotsJoin(front, [next]);
    DropDotsJoin(front + [next], rest);
  }

  // ---------- one archive entry ----------

  datatype Kind = Directory | Symlink(hasTarget: bool) | Regular | Special

  /**
    An archive entry. `resolvesInside` is the answer of the realpath checks on its target and
    `dataOk` that of copying its data: both are up to the environment.
   */
  datatype Entry = Entry(pathname: Option<string>, size: int, kind: Kind,
                         resolvesInside: bool, dataOk: bool)

  /** The entry has a path and the path passes validation. */
  predicate Accepted(e: Entry, mount: string) {
    && e.pathname.Some? && e.pathname.value != ""
    && e.pathname.value[0] != '/'
    && !Contains(e.pathname.value, "..")
    && |mount| + 1 + |e.pathname.value| < PATH_MAX
    && e.resolvesInside
  }

  function Target(e: Entry, mount: string): string
    requires Accepted(e, mount)
  {
    mount + "/" + e.pathname.value
  }

  /** The node an accepted entry is unpacked to. */
  function TargetPath(e: Entry, mount: string): (p: Path)
    requires Accepted(e, mount)
    ensures Resolve(mount) <= p
  {
    ResolveJoin(mount, e.pathname.value);
    Resolve(Target(e, mount))
  }

  /** A component of a path is a piece of its text. */
  lemma {:induction false} TokenInside(s: string, cur: string, k: nat) returns (i: nat)
    requires '/' !in cur && k < |Tokens(s, cur)|
    ensures MatchesAt(cur + s, Tokens(s, cur)[k], i)
  {
    i := 0;
    if s == "" || (s[0] == '/' && k < |Piece(cur)|) {
      assert (cur + s)[..|cur|] == cur;
    } else if s[0] == '/' {
      i := TokenInside(s[1..], "", k - |Piece(cur)|);
      assert "" + s[1..] == s[1..] && (cur + s)[|cur| + 1..] == s[1..];
      MatchesLater(cur + s, |cur| + 1, Tokens(s[1..], "")[k - |Piece(cur)|], i);
      i := |cur| + 1 + i;
    } else {
      i := TokenInside(s[1..], cur + [s[0]], k);
      assert cur + [s[0]] + s[1..] == cur + s;
    }
  }

  lemma MatchesLater(s: string, from: nat, part: string, i: nat)
    requires from <= |s| && MatchesAt(s[from..], part, i)
    ensures MatchesAt(s, part, from + i)
  {
    assert s[from..][i..i + |part|] == s[from + i..from + i + |part|];
  }

  lemma TokenContained(name: string, token: string)
    ensures token in Tokens(name, "") ==> Contains(name, token)
  {
    if token in Tokens(name, "") {
      var k :| 0 <= k < |Tokens(name, "")| && Tokens(name, "")[k] == token;
      var i := TokenInside(name, "", k);
      assert "" + name == name;
    }
  }

  lemma {:induction false} DotsDropped(tokens: seq<string>)
    ensures forall x :: x in DropDots(tokens) ==> x in tokens && x != "."
  {
    if tokens != [] {
      DotsDropped(tokens[1..]);
    }
  }

  /**
    An entry is accepted exactly if it has a relative name of which neither a component nor any
    other part is "..", that fits, and whose real path the system finds inside. It is then unpacked
    below the mount point, by as many names as it has components.
   */
  lemma AcceptedStaysInside(e: Entry, mount: string)
    ensures Accepted(e, mount) <==>
            && e.pathname.Some? && |e.pathname.value| > 0 && e.resolvesInside
            && e.pathname.value[0] != '/' && !Contains(e.pathname.value, "..")
            && |mount + "/" + e.pathname.value| < 4096
    ensures Accepted(e, mount) ==>
            && TargetPath(e, mount) == Resolve(mount) + Resolve(e.pathname.value)
            && ".." !in Resolve(e.pathname.value) && "." !in Resolve(e.pathname.value)
  {
    if Accepted(e, mount) {
      var name := e.pathname.value;
      ResolveJoin(mount, name);
      DotsDropped(Tokens(name, ""));
      TokenContained(name, "..");
    }
  }

  ghost predicate PrefixDirs(nodes: map<Path, Node>, m: Path) {
    forall p :: p <= m ==> p in nodes && nodes[p] == Dir
  }

  ghost predicate SameOutside(a: map<Path, Node>, b: map<Path, Node>, m: Path) {
    forall p :: !(m <= p) ==> (p in a <==> p in b) && (p in a ==> a[p] == b[p])
  }

  /**
    What extraction keeps at all times: nothing outside the mount point has changed, and every
    file or link inside it is on the list (or is one the system would not remove).
   */
  ghost predicate Sound(before: map<Path, Node>, nodes: map<Path, Node>, m: Path,
                        files: seq<string>, refused: set<Path>) {
    && PrefixDirs(nodes, m) && Rooted(nodes)
    && SameOutside(before, nodes, m)
    && (forall p :: Leaf(nodes, p) && m <= p ==> Tracked(files, p) || p in refused)
    && (forall i :: 0 <= i < |files| ==> m <= Resolve(files[i]))
  }

  /** The path string up to its last slash. */
  function ParentOf(target: string): string {
    var slash := LastIndexOf(target, '/');
    if slash < 0 then target else target[..slash]
  }

  lemma ParentOnTheWay(e: Entry, mount: string, parent: string)
    requires mount != "" && mount[0] == '/' && Accepted(e, mount)
    requires parent == ParentOf(Target(e, mount))
    ensures parent != "" && parent[0] == '/' && Resolve(parent) <= TargetPath(e, mount)
    ensures RightBelow(Resolve(parent), TargetPath(e, mount))
  {
    var target := Target(e, mount);
    var slash := LastIndexOf(target, '/');
    assert target[|mount|] == '/';
    var last := target[slash + 1..];
    assert target == target[..slash] + "/" + last;
    ResolveJoin(target[..slash], last);
    LastIsName(last);
  }

  lemma LastIsName(last: string)
    requires '/' !in last
    ensures |Resolve(last)| <= 1
  {
    if last != "" {
      TokensOfName(last, "");
      assert "" + last == last;
      OneName(last);
    }
  }

  lemma NewDirsAreInside(before: map<Path, Node>, nodes: map<Path, Node>, after: map<Path, Node>,
                         m: Path, way: Path, path: Path, files: seq<string>, refused: set<Path>)
    requires Sound(before, nodes, m, files, refused) && OnlyNewDirs(nodes, after, way) && Rooted(after)
    requires way <= path && m <= path
    ensures Sound(before, after, m, files, refused)
  {
  }

  lemma TrackedGrows(files: seq<string>, f: string)
    ensures forall p :: Tracked(files, p) ==> Tracked(files + [f], p)
    ensures Tracked(files + [f], Resolve(f))
  {
    forall p | Tracked(files, p)
      ensures Tracked(files + [f], p)
    {
      var i :| 0 <= i < |files| && Resolve(files[i]) == p;
      assert (files + [f])[i] == files[i];
    }
    assert (files + [f])[|files|] == f;
  }

  /** A node written at `target` keeps extraction sound once `target` is listed. */
  lemma PutTracked(before: map<Path, Node>, nodes: map<Path, Node>, m: Path,
                   files: seq<string>, refused: set<Path>, target: string, node: Node)
    requires Sound(before, nodes, m, files, refused) && m <= Resolve(target)
    ensures Sound(before, nodes, m, files + [target], refused)
    ensures !IsDir(nodes, Resolve(target)) && node != Dir && HasParent(nodes, Resolve(target)) ==>
              Sound(before, nodes[Resolve(target) := node], m, files + [target], refused)
  {
    TrackedGrows(files, target);
    if !IsDir(nodes, Resolve(target)) && node != Dir && HasParent(nodes, Resolve(target)) {
      PutRooted(nodes, Resolve(target), node);
    }
  }

  /** Taking back an unlisted node keeps extraction sound, whether or not the system agrees. */
  lemma TakenBack(before: map<Path, Node>, nodes: map<Path, Node>, after: map<Path, Node>, m: Path,
                  files: seq<string>, refused: set<Path>, path: Path, refused': set<Path>)
    requires Sound(before, nodes, m, files, refused) && m <= path && refused <= refused'
    requires !(path in nodes && nodes[path] == Dir)
    requires forall p :: p != path ==> (p in after <==> p in nodes) && (p in nodes ==> after[p] == nodes[p])
    requires path in after ==> after[path] != Dir && path in refused' && (path in nodes || HasParent(nodes, path))
    ensures Sound(before, after, m, files, refused')
  {
    assert Rooted(after) by {
      forall p, q | p in after && Above(q, p)
        ensures IsDir(after, q)
      {
        if p in nodes {
          assert IsDir(nodes, q);
        } else {
          assert q == p[..|p| - 1] || Above(q, p[..|p| - 1]);
        }
      }
    }
  }

  /** Unlinking at `path` keeps extraction sound. */
  lemma Unlinked(before: map<Path, Node>, nodes: map<Path, Node>, after: map<Path, Node>, m: Path,
                 files: seq<string>, refused: set<Path>, path: Path, refused': set<Path>)
    requires Sound(before, nodes, m, files, refused) && m <= path && refused <= refused'
    requires after == nodes || (after == nodes - {path} && !(path in nodes && nodes[path] == Dir))
    ensures Sound(before, after, m, files, refused')
  {
    assert Rooted(after) by {
      forall p, q | p in after && Above(q, p)
        ensures IsDir(after, q)
      {
        assert IsDir(nodes, q);
      }
    }
  }

  lemma RootIsThere(before: map<Path, Node>, nodes: map<Path, Node>, m: Path, files: seq<string>, refused: set<Path>)
    requires Sound(before, nodes, m, files, refused)
    ensures IsDir(nodes, []) && Rooted(nodes)
  {
  }

  /** Directories are new only on the way to this path, if any. */
  ghost predicate OnlyTheseDirs(before: map<Path, Node>, after: map<Path, Node>, path: Option<Path>) {
    forall p :: p in after && after[p] == Dir && !(p in before && before[p] == Dir) ==> path.Some? && p <= path.value
  }

  /** Files, or links, are new only at this path, if any. */
  ghost predicate OnlyThis(before: map<Path, Node>, after: map<Path, Node>, node: Node, path: Option<Path>) {
    forall p :: p in after && after[p] == node && !(p in before && before[p] == node) ==> path == Some(p)
  }

  /** What may be new: directories on one way, a file at one place, a link at another. Directories stay. */
  ghost predicate Touches(before: map<Path, Node>, after: map<Path, Node>,
                          dirs: Option<Path>, file: Option<Path>, link: Option<Path>) {
    && OnlyTheseDirs(before, after, dirs) && OnlyThis(before, after, File, file) && OnlyThis(before, after, Link, link)
    && forall p :: IsDir(before, p) ==> IsDir(after, p)
  }

  /** Files and links stay, but for what stood at this path, if any. */
  ghost predicate Keeps(before: map<Path, Node>, after: map<Path, Node>, but: Option<Path>) {
    forall p :: Leaf(before, p) && but != Some(p) ==> p in after && after[p] == before[p]
  }

  /** A file or link can be put here, below the directory `parent`. */
  ghost predicate HasRoom(nodes: map<Path, Node>, path: Path, parent: string) {
    CanHold(nodes, parent) && path != Resolve(parent) && !IsDir(nodes, path)
  }

  method PlaceSymlink(tree: FileTree, list: ExtractedFiles, m: Path, target: string, parent: string,
                      hasTarget: bool, ghost before: map<Path, Node>)
    requires parent != "" && parent[0] == '/' && RightBelow(Resolve(parent), Resolve(target)) && m <= Resolve(target)
    requires list.Valid() && Sound(before, tree.nodes, m, list.Contents(), tree.refused)
    modifies tree, list, list.files
    ensures list.Valid() && (list.files == old(list.files) || fresh(list.files))
    ensures Sound(before, tree.nodes, m, list.Contents(), tree.refused)
    ensures !hasTarget ==> tree.nodes == old(tree.nodes)
    ensures hasTarget ==> Touches(old(tree.nodes), tree.nodes, Some(Resolve(parent)), None, Some(Resolve(target)))
    ensures hasTarget ==> Keeps(old(tree.nodes), tree.nodes, Some(Resolve(target)))
    // The link is there afterwards, given room for it and a system that refuses nothing.
    ensures hasTarget && HasRoom(old(tree.nodes), Resolve(target), parent) && !tree.Denied(old(tree.clock)) ==>
              Resolve(target) in tree.nodes && tree.nodes[Resolve(target)] == Link
    ensures old(tree.refused) <= tree.refused && tree.clock >= old(tree.clock)
  {
    var path := Resolve(target);
    hide Sound, CanHold, Rooted, HasRoom, Touches, Keeps, OnlyNewDirs;
    PutTracked(before, tree.nodes, m, list.Contents(), tree.refused, target, Link);
    if hasTarget {
      ghost var start := tree.nodes;
      RootIsThere(before, start, m, list.Contents(), tree.refused);
      var made := EnsureDirectory(tree, parent);
      NewDirsAreInside(before, start, tree.nodes, m, Resolve(parent), path, list.Contents(), tree.refused);
      ghost var nodes := tree.nodes;
      PutLink(tree, m, target, list.Contents(), before);
      LinkTouches(start, nodes, tree.nodes, Resolve(parent), path);
      RoomHolds(start, path, parent);
      if made && HasRoom(start, path, parent) {
        RoomStays(start, nodes, path, parent);
      }
    }
    list.Add(target);
  }

  /** Nothing but the node at `path` differs: a link now, or gone, unless it is as before. */
  ghost predicate Linked(nodes: map<Path, Node>, after: map<Path, Node>, path: Path) {
    && (forall p :: p != path ==> (p in after <==> p in nodes) && (p in nodes ==> after[p] == nodes[p]))
    && (IsDir(nodes, path) ==> IsDir(after, path))
    && (path in after ==> after[path] == Link || (path in nodes && after[path] == nodes[path]))
  }

  /** Removes what stands there, unless it is a directory, and puts a link in its place. */
  method PutLink(tree: FileTree, ghost m: Path, target: string, ghost files: seq<string>, ghost before: map<Path, Node>)
    requires m <= Resolve(target) && Sound(before, tree.nodes, m, files, tree.refused)
    modifies tree
    ensures Sound(before, tree.nodes, m, files + [target], tree.refused)
    ensures Linked(old(tree.nodes), tree.nodes, Resolve(target))
    ensures HasParent(old(tree.nodes), Resolve(target)) && !IsDir(old(tree.nodes), Resolve(target)) ==>
              tree.Denied(old(tree.clock)) || (Resolve(target) in tree.nodes && tree.nodes[Resolve(target)] == Link)
    ensures old(tree.refused) <= tree.refused && tree.clock >= old(tree.clock)
  {
    hide Sound;
    var path := Resolve(target);
    ghost var nodes, refused := tree.nodes, tree.refused;
    tree.Unlink(path);
    Unlinked(before, nodes, tree.nodes, m, files, refused, path, tree.refused);
    PutTracked(before, tree.nodes, m, files, tree.refused, target, Link);
    tree.Symlink(path);
  }

  lemma LinkTouches(start: map<Path, Node>, nodes: map<Path, Node>, after: map<Path, Node>, way: Path, path: Path)
    requires OnlyNewDirs(start, nodes, way) && Linked(nodes, after, path)
    ensures Touches(start, after, Some(way), None, Some(path)) && Keeps(start, after, Some(path))
  {
  }

  /** Room that there was is still there once the parent has been made. */
  lemma RoomStays(start: map<Path, Node>, nodes: map<Path, Node>, path: Path, parent: string)
    requires HasRoom(start, path, parent) && RightBelow(Resolve(parent), path)
    requires OnlyNewDirs(start, nodes, Resolve(parent)) && IsDir(nodes, Resolve(parent))
    ensures HasParent(nodes, path) && !IsDir(nodes, path)
  {
  }

  method PlaceRegular(tree: FileTree, list: ExtractedFiles, m: Path, target: string, parent: string,
                      dataOk: bool, ghost before: map<Path, Node>)
    returns (placed: bool)
    requires parent != "" && parent[0] == '/' && RightBelow(Resolve(parent), Resolve(target)) && m <= Resolve(target)
    requires list.Valid() && Sound(before, tree.nodes, m, list.Contents(), tree.refused)
    modifies tree, list, list.files
    ensures list.Valid() && (list.files == old(list.files) || fresh(list.files))
    ensures Sound(before, tree.nodes, m, list.Contents(), tree.refused)
    ensures placed ==> Resolve(target) in tree.nodes && tree.nodes[Resolve(target)] == File
    ensures placed ==> Keeps(old(tree.nodes), tree.nodes, None)
    ensures Touches(old(tree.nodes), tree.nodes, Some(Resolve(parent)), Some(Resolve(target)), None)
    ensures old(tree.refused) <= tree.refused && tree.clock >= old(tree.clock)
    ensures placed <==>
              && dataOk && HasRoom(old(tree.nodes), Resolve(target), parent) && !tree.Denied(old(tree.clock))
              && !(Resolve(target) in old(tree.nodes) && old(tree.nodes)[Resolve(target)] == Link)
  {
    hide Sound, CanHold, Rooted, HasRoom, Touches, Keeps, OnlyNewDirs;
    var path := Resolve(target);
    ghost var start := tree.nodes;
    RootIsThere(before, start, m, list.Contents(), tree.refused);
    placed := EnsureDirectory(tree, parent);
    NewDirsAreInside(before, start, tree.nodes, m, Resolve(parent), path, list.Contents(), tree.refused);
    ghost var nodes := tree.nodes;
    RoomHolds(start, path, parent);
    if placed {
      SameRoom(start, nodes, path, parent);
      placed := PutFile(tree, m, target, dataOk, list.Contents(), before);
    }
    FileTouches(start, nodes, tree.nodes, Resolve(parent), path);
    if placed {
      list.Add(target);
    }
  }

  /** Nothing but the node at `path` differs: a file now, or gone, unless it is as before. */
  ghost predicate Filed(nodes: map<Path, Node>, after: map<Path, Node>, path: Path) {
    && (forall p :: p != path ==> (p in after <==> p in nodes) && (p in nodes ==> after[p] == nodes[p]))
    && (path in nodes && nodes[path] != File ==> path in after && after[path] == nodes[path])
    && (path in after ==> after[path] == File || (path in nodes && after[path] == nodes[path]))
  }

  /** Opens the file and copies its data; when that fails, the file is removed again. */
  method PutFile(tree: FileTree, ghost m: Path, target: string, dataOk: bool, ghost files: seq<string>,
                 ghost before: map<Path, Node>)
    returns (placed: bool)
    requires m <= Resolve(target) && Sound(before, tree.nodes, m, files, tree.refused)
    requires HasParent(tree.nodes, Resolve(target)) || IsDir(tree.nodes, Resolve(target))
    modifies tree
    ensures Sound(before, tree.nodes, m, if placed then files + [target] else files, tree.refused)
    ensures Filed(old(tree.nodes), tree.nodes, Resolve(target))
    ensures placed ==> Resolve(target) in tree.nodes && tree.nodes[Resolve(target)] == File
    ensures placed <==>
              && dataOk && tree.answers(old(tree.clock))
              && !(Resolve(target) in old(tree.nodes) && old(tree.nodes)[Resolve(target)] != File)
    ensures placed ==> tree.clock == old(tree.clock) + 1
    ensures !placed && dataOk ==>
              tree.Denied(old(tree.clock)) || (Resolve(target) in old(tree.nodes) && old(tree.nodes)[Resolve(target)] != File)
    ensures old(tree.refused) <= tree.refused && tree.clock >= old(tree.clock)
  {
    hide Sound;
    var path := Resolve(target);
    ghost var nodes, refused := tree.nodes, tree.refused;
    placed := tree.OpenForWriting(path);
    if placed && !dataOk {
      tree.Unlink(path);
      TakenBack(before, nodes, tree.nodes, m, files, refused, path, tree.refused);
      placed := false;
    } else if placed {
      PutTracked(before, nodes, m, files, refused, target, File);
    }
  }

  lemma FileTouches(start: map<Path, Node>, nodes: map<Path, Node>, after: map<Path, Node>, way: Path, path: Path)
    requires OnlyNewDirs(start, nodes, way) && Filed(nodes, after, path)
    ensures Touches(start, after, Some(way), Some(path), None)
    ensures path in after && after[path] == File ==> Keeps(start, after, None)
  {
  }

  lemma RoomHolds(nodes: map<Path, Node>, path: Path, parent: string)
    ensures HasRoom(nodes, path, parent) ==> CanHold(nodes, parent)
  {
  }

  /** Once the parent has been made, a file finds room exactly when there was room before. */
  lemma SameRoom(start: map<Path, Node>, nodes: map<Path, Node>, path: Path, parent: string)
    requires OnlyNewDirs(start, nodes, Resolve(parent)) && RightBelow(Resolve(parent), path)
    requires IsDir(nodes, Resolve(parent)) && CanHold(start, parent)
    ensures HasParent(nodes, path) || IsDir(nodes, path)
    ensures HasRoom(start, path, parent) <==> !IsDir(nodes, path)
    ensures path in nodes && nodes[path] == Link <==> path in start && start[path] == Link
  {
  }

  /** Whether directories are made for the entry, and on the way to where. */
  predicate MakesDirs(e: Entry) {
    e.kind == Directory || e.kind == Symlink(true) || e.kind == Regular
  }

  /** The path string of that directory. */
  function DirString(e: Entry, mount: string): string
    requires Accepted(e, mount)
  {
    if e.kind.Directory? then Target(e, mount) else ParentOf(Target(e, mount))
  }

  function DirPath(e: Entry, mount: string): Path
    requires Accepted(e, mount)
  {
    Resolve(DirString(e, mount))
  }

  /** What one accepted entry may change. */
  ghost predicate Handles(e: Entry, mount: string, before: map<Path, Node>, after: map<Path, Node>)
    requires Accepted(e, mount)
  {
    Touches(before, after,
            if MakesDirs(e) then Some(DirPath(e, mount)) else None,
            if e.kind.Regular? then Some(TargetPath(e, mount)) else None,
            if e.kind == Symlink(true) then Some(TargetPath(e, mount)) else None)
  }

  /** Nothing in the tree stands against the directory, file or link of the entry. */
  ghost predicate Fits(e: Entry, mount: string, nodes: map<Path, Node>)
    requires Accepted(e, mount)
  {
    if e.kind.Directory? then CanHold(nodes, DirString(e, mount))
    else HasRoom(nodes, TargetPath(e, mount), DirString(e, mount))
  }

  /** What the entry asks for is there. */
  ghost predicate IsThere(e: Entry, mount: string, nodes: map<Path, Node>)
    requires Accepted(e, mount)
  {
    var p := TargetPath(e, mount);
    match e.kind
    case Directory => IsDir(nodes, p)
    case Symlink(hasTarget) => hasTarget ==> p in nodes && nodes[p] == Link
    case Regular => p in nodes && nodes[p] == File
    case Special => true
  }

  /**
    Unpacks one accepted entry; `placed` is false when the whole extraction must stop. Only a file
    can make it stop; a directory or link that cannot be made is passed over.
   */
  method ExtractEntry(tree: FileTree, list: ExtractedFiles, mount: string, e: Entry,
                      ghost before: map<Path, Node>)
    returns (placed: bool)
    requires mount != "" && mount[0] == '/' && Accepted(e, mount)
    requires list.Valid() && Sound(before, tree.nodes, Resolve(mount), list.Contents(), tree.refused)
    modifies tree, list, list.files
    ensures list.Valid() && (list.files == old(list.files) || fresh(list.files))
    ensures Sound(before, tree.nodes, Resolve(mount), list.Contents(), tree.refused)
    ensures Handles(e, mount, old(tree.nodes), tree.nodes)
    ensures placed ==>
              Keeps(old(tree.nodes), tree.nodes, if e.kind == Symlink(true) then Some(TargetPath(e, mount)) else None)
    ensures placed && e.kind.Regular? ==> IsThere(e, mount, tree.nodes)
    ensures Fits(e, mount, old(tree.nodes)) && placed && !tree.Denied(old(tree.clock)) ==> IsThere(e, mount, tree.nodes)
    ensures old(tree.refused) <= tree.refused && tree.clock >= old(tree.clock)
    ensures placed <==> e.kind.Regular? ==>
              && e.dataOk && Fits(e, mount, old(tree.nodes)) && !tree.Denied(old(tree.clock))
              && !(TargetPath(e, mount) in old(tree.nodes) && old(tree.nodes)[TargetPath(e, mount)] == Link)
  {
    hide Sound, TooDeep, CanHold;
    var target := Target(e, mount);
    var path := TargetPath(e, mount);
    var parent := ParentOf(target);
    ParentOnTheWay(e, mount, parent);
    var m := Resolve(mount);
    match e.kind {
      case Directory =>
        ghost var start := tree.nodes;
        RootIsThere(before, start, m, list.Contents(), tree.refused);
        var made := EnsureDirectory(tree, target);
        NewDirsAreInside(before, start, tree.nodes, m, path, path, list.Contents(), tree.refused);
        placed := true;
      case Symlink(hasTarget) =>
        PlaceSymlink(tree, list, m, target, parent, hasTarget, before);
        placed := true;
      case Regular =>
        placed := PlaceRegular(tree, list, m, target, parent, e.dataOk, before);
      case Special =>
        placed := true;
    }
  }

  // ---------- the whole archive ----------

  /** The declared sizes of the first `n` entries, whether unpacked or skipped. */
  function Bytes(entries: seq<Entry>, n: nat): nat
    requires n <= |entries|
  {
    if n == 0 then 0
    else Bytes(entries, n - 1) + (if entries[n - 1].size > 0 then entries[n - 1].size else 0)
  }

  function Percent(bytes: nat, total: nat): nat
    requires total > 0
  {
    var percent := bytes * 100 / total;
    if percent > 100 then 100 else percent
  }

  /** The percentage is the whole hundredths of the total that have been reached, up to all of them. */
  lemma PercentIs(bytes: nat, total: nat, k: nat)
    requires total > 0 && k <= 100
    ensures Percent(bytes, total) >= k <==> bytes * 100 >= k * total
    ensures Percent(bytes, total) <= 100
  {
    QuotientReaches(bytes * 100, total, k);
  }

  /** What the callback is told while the first `n` entries are handled. */
  function Reports(entries: seq<Entry>, mount: string, total: nat, n: nat): seq<nat>
    requires n <= |entries| && total > 0
  {
    if n == 0 then []
    else Reports(entries, mount, total, n - 1)
         + (if Accepted(entries[n - 1], mount) then [Percent(Bytes(entries, n), total)] else [])
  }

  lemma ReportsStart(entries: seq<Entry>, mount: string, total: nat)
    requires total > 0
    ensures Reports(entries, mount, total, 0) == [] && Bytes(entries, 0) == 0
  {
  }

  lemma ReportsStep(entries: seq<Entry>, mount: string, total: nat, n: nat)
    requires n < |entries| && total > 0
    ensures Bytes(entries, n + 1) == Bytes(entries, n) + (if entries[n].size > 0 then entries[n].size else 0)
    ensures Reports(entries, mount, total, n + 1) == Reports(entries, mount, total, n)
            + (if Accepted(entries[n], mount) then [Percent(Bytes(entries, n + 1), total)] else [])
  {
  }

  ghost predicate Steady(reports: seq<nat>) {
    && (forall i :: 0 <= i < |reports| ==> reports[i] <= 100)
    && (forall i, j :: 0 <= i < j < |reports| ==> reports[i] <= reports[j])
  }

  lemma SteadyToTheEnd(reports: seq<nat>)
    requires Steady(reports)
    ensures Steady(reports + [100])
  {
  }

  lemma PercentMonotone(a: nat, b: nat, total: nat)
    requires a <= b && total > 0
    ensures Percent(a, total) <= Percent(b, total)
  {
    DivMonotone(a * 100, b * 100, total);
  }

  /** The reported percentages never go back and never leave 0 to 100. */
  lemma {:induction false} ReportsSteady(entries: seq<Entry>, mount: string, total: nat, n: nat)
    requires n <= |entries| && total > 0
    ensures Steady(Reports(entries, mount, total, n))
    ensures forall i :: 0 <= i < |Reports(entries, mount, total, n)| ==>
              Reports(entries, mount, total, n)[i] <= Percent(Bytes(entries, n), total)
  {
    if n > 0 {
      ReportsSteady(entries, mount, total, n - 1);
      PercentMonotone(Bytes(entries, n - 1), Bytes(entries, n), total);
    }
  }

  /** Entry `j` is an accepted symlink to the same node, so it may replace an earlier file or link. */
  ghost predicate ReplacedBy(entries: seq<Entry>, mount: string, p: Path, j: nat)
    requires j < |entries|
  {
    Accepted(entries[j], mount) && entries[j].kind == Symlink(true) && TargetPath(entries[j], mount) == p
  }

  ghost predicate IsFileOf(entries: seq<Entry>, mount: string, p: Path, j: nat)
    requires j < |entries|
  {
    Accepted(entries[j], mount) && entries[j].kind.Regular? && TargetPath(entries[j], mount) == p
  }

  /** What entry `i` asked for is there, unless a later link among the first `n` entries took its place. */
  ghost predicate Holds(entries: seq<Entry>, mount: string, i: nat, n: nat, nodes: map<Path, Node>)
    requires i < n <= |entries| && Accepted(entries[i], mount)
  {
    (forall j :: i < j < n ==> !ReplacedBy(entries, mount, TargetPath(entries[i], mount), j))
    ==> IsThere(entries[i], mount, nodes)
  }

  /**
    The volume holds the first `n` entries: each accepted file that no later link replaced is there,
    and so is each link and directory that has a place, if the system has denied nothing. The
    directories there were before are still there.
   */
  ghost predicate Delivered(entries: seq<Entry>, mount: string, n: nat, before: map<Path, Node>,
                            nodes: map<Path, Node>, denied: bool)
    requires n <= |entries|
  {
    && (forall i :: 0 <= i < n && Accepted(entries[i], mount) && entries[i].kind.Regular? ==>
          Holds(entries, mount, i, n, nodes))
    && (!denied ==> forall i :: 0 <= i < n && Placeable(entries, mount, i, before) ==>
          Holds(entries, mount, i, n, nodes))
    && (forall p :: IsDir(before, p) ==> IsDir(nodes, p))
  }

  /** What was delivered stays delivered through one more entry, unless a link takes its place. */
  lemma DeliveredStep(entries: seq<Entry>, mount: string, n: nat, before: map<Path, Node>,
                      nodes: map<Path, Node>, after: map<Path, Node>, denied: bool, deniedNow: bool)
    requires n < |entries| && Delivered(entries, mount, n, before, nodes, denied) && (denied ==> deniedNow)
    requires Accepted(entries[n], mount) && Handles(entries[n], mount, nodes, after)
    requires var e := entries[n];
      && Keeps(nodes, after, if e.kind == Symlink(true) then Some(TargetPath(e, mount)) else None)
      && (e.kind.Regular? ==> IsThere(e, mount, after))
      && (!deniedNow && Placeable(entries, mount, n, before) ==> IsThere(e, mount, after))
    ensures Delivered(entries, mount, n + 1, before, after, deniedNow)
  {
    hide Accepted, Placeable, Holds, IsThere, Keeps;
    forall i | 0 <= i < n && Accepted(entries[i], mount) && Holds(entries, mount, i, n, nodes)
      ensures Holds(entries, mount, i, n + 1, after)
    {
      HoldsStep(entries, mount, i, n, nodes, after);
    }
    if IsThere(entries[n], mount, after) {
      HoldsNow(entries, mount, n, after);
    }
    forall i | 0 <= i < n + 1 && Accepted(entries[i], mount) && entries[i].kind.Regular?
      ensures Holds(entries, mount, i, n + 1, after)
    {
      assert i < n ==> Holds(entries, mount, i, n, nodes);
    }
    if !deniedNow {
      forall i | 0 <= i < n + 1 && Placeable(entries, mount, i, before)
        ensures Accepted(entries[i], mount) && Holds(entries, mount, i, n + 1, after)
      {
        PlaceableAccepted(entries, mount, i, before);
        assert i < n ==> Holds(entries, mount, i, n, nodes);
      }
    }
  }

  lemma PlaceableAccepted(entries: seq<Entry>, mount: string, i: nat, before: map<Path, Node>)
    requires i < |entries| && Placeable(entries, mount, i, before)
    ensures Accepted(entries[i], mount) && MakesDirs(entries[i])
  {
  }

  lemma HoldsNow(entries: seq<Entry>, mount: string, n: nat, nodes: map<Path, Node>)
    requires n < |entries| && Accepted(entries[n], mount) && IsThere(entries[n], mount, nodes)
    ensures Holds(entries, mount, n, n + 1, nodes)
  {
  }

  lemma HoldsStep(entries: seq<Entry>, mount: string, i: nat, n: nat, nodes: map<Path, Node>, after: map<Path, Node>)
    requires i < n < |entries| && Accepted(entries[i], mount) && Holds(entries, mount, i, n, nodes)
    requires Accepted(entries[n], mount) && Handles(entries[n], mount, nodes, after)
    requires Keeps(nodes, after, if entries[n].kind == Symlink(true) then Some(TargetPath(entries[n], mount)) else None)
    ensures Holds(entries, mount, i, n + 1, after)
  {
    hide Accepted;
    var p := TargetPath(entries[i], mount);
    if forall j :: i < j < n + 1 ==> !ReplacedBy(entries, mount, p, j) {
      assert !ReplacedBy(entries, mount, p, n);
      assert IsThere(entries[i], mount, nodes);
      assert Leaf(nodes, p) ==> after[p] == nodes[p];
    }
  }

  /** Removing the listed files leaves only what the system refused to remove. */
  lemma AfterRemoval(before: map<Path, Node>, nodes: map<Path, Node>, after: map<Path, Node>, m: Path,
                     files: seq<string>, refused: set<Path>, refused': set<Path>)
    requires Sound(before, nodes, m, files, refused) && refused <= refused'
    requires forall p :: p in after ==> p in nodes && after[p] == nodes[p]
    requires forall p :: p in nodes && p !in after ==> Leaf(nodes, p) && Tracked(files, p)
    requires forall p :: Leaf(after, p) && Tracked(files, p) ==> p in refused'
    ensures Sound(before, after, m, files, refused')
    ensures forall p :: Leaf(after, p) && m <= p ==> p in refused'
  {
    assert Rooted(after) by {
      forall p, q | p in after && Above(q, p)
        ensures IsDir(after, q)
      {
        assert IsDir(nodes, q);
      }
    }
  }

  // ---------- what can keep an entry from being unpacked ----------

  /** Entry `j` puts a file or link on the way to entry `d`, or makes a directory in its place. */
  ghost predicate Obstructs(entries: seq<Entry>, mount: string, j: nat, d: nat)
    requires j < |entries| && d < |entries| && Accepted(entries[d], mount)
  {
    var e, f := entries[j], entries[d];
    && Accepted(e, mount)
    && (|| ((e.kind.Regular? || e.kind == Symlink(true)) && TargetPath(e, mount) <= DirPath(f, mount))
        || (!f.kind.Directory? && MakesDirs(e) && TargetPath(f, mount) <= DirPath(e, mount)))
  }

  /** Entry `d` has a place: it does not lie too deep, and neither the tree nor an earlier entry obstructs it. */
  ghost predicate Placeable(entries: seq<Entry>, mount: string, d: nat, before: map<Path, Node>)
    requires d < |entries|
  {
    var f := entries[d];
    && Accepted(f, mount) && MakesDirs(f) && !TooDeep(DirString(f, mount))
    && (!f.kind.Directory? ==> TargetPath(f, mount) !in before && TargetPath(f, mount) != DirPath(f, mount))
    && forall j :: 0 <= j < d ==> !Obstructs(entries, mount, j, d)
  }

  /** File entry `d` cannot be written: it has no place, or an earlier entry puts a link there. */
  ghost predicate Clash(entries: seq<Entry>, mount: string, d: nat, before: map<Path, Node>)
    requires d < |entries| && Accepted(entries[d], mount)
  {
    || !Placeable(entries, mount, d, before)
    || exists j :: 0 <= j < d && ReplacedBy(entries, mount, TargetPath(entries[d], mount), j)
  }

  /** Why extraction may stop at entry `d`; `denied` is whether the system refused anything. */
  ghost predicate Hindered(entries: seq<Entry>, mount: string, d: nat, before: map<Path, Node>, denied: bool)
    requires d < |entries|
  {
    && Accepted(entries[d], mount) && entries[d].kind.Regular?
    && (!entries[d].dataOk || denied || Clash(entries, mount, d, before))
  }

  ghost predicate MadeFor(entries: seq<Entry>, mount: string, p: Path, j: nat)
    requires j < |entries|
  {
    Accepted(entries[j], mount) && MakesDirs(entries[j]) && p <= DirPath(entries[j], mount)
  }

  /** Every file, link and new directory is there because of one of the first `n` entries. */
  ghost predicate Explained(entries: seq<Entry>, mount: string, n: nat, before: map<Path, Node>, nodes: map<Path, Node>)
    requires n <= |entries|
  {
    && (forall p :: p in nodes && nodes[p] == File && Resolve(mount) <= p ==>
          exists j :: 0 <= j < n && IsFileOf(entries, mount, p, j))
    && (forall p :: p in nodes && nodes[p] == Link && Resolve(mount) <= p ==>
          exists j :: 0 <= j < n && ReplacedBy(entries, mount, p, j))
    && (forall p :: p in nodes && nodes[p] == Dir && Resolve(mount) <= p ==>
          p in before || exists j :: 0 <= j < n && MadeFor(entries, mount, p, j))
  }

  lemma ExplainedStep(entries: seq<Entry>, mount: string, n: nat, before: map<Path, Node>,
                      nodes: map<Path, Node>, after: map<Path, Node>)
    requires n < |entries| && Explained(entries, mount, n, before, nodes) && Accepted(entries[n], mount)
    requires Handles(entries[n], mount, nodes, after)
    ensures Explained(entries, mount, n + 1, before, after)
  {
    hide Accepted, MakesDirs;
    forall p | p in after && after[p] == File && Resolve(mount) <= p
      ensures exists j :: 0 <= j < n + 1 && IsFileOf(entries, mount, p, j)
    {
      if p in nodes && nodes[p] == File {
        var j :| 0 <= j < n && IsFileOf(entries, mount, p, j);
      } else {
        assert IsFileOf(entries, mount, p, n);
      }
    }
    forall p | p in after && after[p] == Link && Resolve(mount) <= p
      ensures exists j :: 0 <= j < n + 1 && ReplacedBy(entries, mount, p, j)
    {
      if p in nodes && nodes[p] == Link {
        var j :| 0 <= j < n && ReplacedBy(entries, mount, p, j);
      } else {
        assert ReplacedBy(entries, mount, p, n);
      }
    }
    forall p | p in after && after[p] == Dir && Resolve(mount) <= p
      ensures p in before || exists j :: 0 <= j < n + 1 && MadeFor(entries, mount, p, j)
    {
      if p in nodes && nodes[p] == Dir {
        if p !in before {
          var j :| 0 <= j < n && MadeFor(entries, mount, p, j);
        }
      } else {
        assert MadeFor(entries, mount, p, n);
      }
    }
  }

  lemma LeafIsInside(nodes: map<Path, Node>, m: Path, q: Path, path: Path)
    requires PrefixDirs(nodes, m) && Leaf(nodes, q) && q <= path && m <= path
    ensures m <= q
  {
    if |q| <= |m| {
      Shorter(q, m, path);
    } else {
      Shorter(m, q, path);
    }
  }

  /** Of two ways to the same place the shorter is part of the longer. */
  lemma Shorter(q: Path, m: Path, path: Path)
    requires q <= path && m <= path && |q| <= |m|
    ensures q <= m
  {
    assert q == path[..|q|] == m[..|q|];
  }

  lemma NothingObstructs(entries: seq<Entry>, mount: string, j: nat, n: nat, before: map<Path, Node>)
    requires j < n < |entries| && Placeable(entries, mount, n, before)
    ensures !Obstructs(entries, mount, j, n)
  {
  }

  /** An entry that has a place fits the tree that the earlier entries have left. */
  lemma PlaceableFits(entries: seq<Entry>, mount: string, n: nat, before: map<Path, Node>, nodes: map<Path, Node>)
    requires mount != "" && mount[0] == '/' && n < |entries| && Placeable(entries, mount, n, before)
    requires PrefixDirs(nodes, Resolve(mount)) && Explained(entries, mount, n, before, nodes)
    ensures Fits(entries[n], mount, nodes)
  {
    var f := entries[n];
    var path, way := TargetPath(f, mount), DirPath(f, mount);
    ParentOnTheWay(f, mount, ParentOf(Target(f, mount)));
    hide Accepted, PrefixDirs, Leaf;
    if LeafOnTheWay(nodes, way) {
      var q :| q <= way && Leaf(nodes, q);
      LeafIsInside(nodes, Resolve(mount), q, path);
      LeafIsExplained(entries, mount, n, before, nodes, q);
      var j :| 0 <= j < n && (IsFileOf(entries, mount, q, j) || ReplacedBy(entries, mount, q, j));
      NothingObstructs(entries, mount, j, n, before);
    }
    if !f.kind.Directory? && IsDir(nodes, path) {
      var j :| 0 <= j < n && MadeFor(entries, mount, path, j);
      NothingObstructs(entries, mount, j, n, before);
    }
  }

  lemma LeafIsExplained(entries: seq<Entry>, mount: string, n: nat, before: map<Path, Node>, nodes: map<Path, Node>, q: Path)
    requires n <= |entries| && Explained(entries, mount, n, before, nodes) && Leaf(nodes, q) && Resolve(mount) <= q
    ensures exists j :: 0 <= j < n && (IsFileOf(entries, mount, q, j) || ReplacedBy(entries, mount, q, j))
  {
    assert nodes[q] == File || nodes[q] == Link;
  }

  /** A file that does not fit the tree, or is met by a link there, clashes with the tree or an earlier entry. */
  lemma BlockedIsClash(entries: seq<Entry>, mount: string, n: nat, before: map<Path, Node>, nodes: map<Path, Node>)
    requires mount != "" && mount[0] == '/' && n < |entries| && Accepted(entries[n], mount) && entries[n].kind.Regular?
    requires PrefixDirs(nodes, Resolve(mount)) && Explained(entries, mount, n, before, nodes)
    requires var path := TargetPath(entries[n], mount);
             !Fits(entries[n], mount, nodes) || (path in nodes && nodes[path] == Link)
    ensures Clash(entries, mount, n, before)
  {
    hide Accepted, Fits;
    if Placeable(entries, mount, n, before) {
      PlaceableFits(entries, mount, n, before, nodes);
    }
  }

  method UnpackEntry(tree: FileTree, list: ExtractedFiles, mount: string, entries: seq<Entry>, n: nat,
                     ghost before: map<Path, Node>, ghost since: nat)
    returns (placed: bool)
    requires mount != "" && mount[0] == '/' && n < |entries| && Accepted(entries[n], mount)
    requires list.Valid() && Sound(before, tree.nodes, Resolve(mount), list.Contents(), tree.refused)
    requires since <= tree.clock && Delivered(entries, mount, n, before, tree.nodes, tree.Denied(since))
    requires Explained(entries, mount, n, before, tree.nodes)
    modifies tree, list, list.files
    ensures list.Valid() && (list.files == old(list.files) || fresh(list.files))
    ensures Sound(before, tree.nodes, Resolve(mount), list.Contents(), tree.refused)
    ensures placed ==> Delivered(entries, mount, n + 1, before, tree.nodes, tree.Denied(since))
    ensures placed ==> Explained(entries, mount, n + 1, before, tree.nodes)
    ensures tree.clock >= old(tree.clock)
    ensures !placed ==> Hindered(entries, mount, n, before, tree.Denied(old(tree.clock)))
  {
    ghost var nodes, denied := tree.nodes, tree.Denied(since);
    RootsAreThere(before, nodes, Resolve(mount), list.Contents(), tree.refused);
    hide Sound, Delivered, Explained, Accepted, Clash, Fits, Handles, Keeps, IsThere, PrefixDirs, Placeable;
    if Placeable(entries, mount, n, before) {
      PlaceableFits(entries, mount, n, before, nodes);
    }
    placed := ExtractEntry(tree, list, mount, entries[n], before);
    if placed {
      DeliveredStep(entries, mount, n, before, nodes, tree.nodes, denied, tree.Denied(since));
      ExplainedStep(entries, mount, n, before, nodes, tree.nodes);
    } else if entries[n].dataOk && !tree.Denied(old(tree.clock)) {
      BlockedIsClash(entries, mount, n, before, nodes);
    }
  }

  lemma RootsAreThere(before: map<Path, Node>, nodes: map<Path, Node>, m: Path, files: seq<string>, refused: set<Path>)
    requires Sound(before, nodes, m, files, refused)
    ensures PrefixDirs(nodes, m)
  {
  }

  /** Takes back every listed file, keeping extraction sound. */
  method RollBack(tree: FileTree, list: ExtractedFiles, ghost before: map<Path, Node>, ghost m: Path)
    requires list.Valid() && Sound(before, tree.nodes, m, list.Contents(), tree.refused)
    modifies tree
    ensures Sound(before, tree.nodes, m, list.Contents(), tree.refused)
    ensures forall p :: Leaf(tree.nodes, p) && m <= p ==> p in tree.refused
    ensures tree.clock >= old(tree.clock)
  {
    ghost var nodes, refused := tree.nodes, tree.refused;
    RemoveAll(list, tree);
    AfterRemoval(before, nodes, tree.nodes, m, list.Contents(), refused, tree.refused);
  }

  /**
    The reads a run adds to the log: each, except perhaps the last, saw the flag clear, and if the
    flag was set when the run began then none did. So such a run makes at most one read.
   */
  ghost predicate ClearButLast(start: seq<bool>, log: seq<bool>, wasSet: bool) {
    && start <= log
    && (forall k :: |start| <= k < |log| - 1 ==> !log[k])
    && (wasSet ==> forall k :: |start| <= k < |log| ==> log[k])
  }

  /** So far every read saw the flag clear. */
  ghost predicate AllClear(start: seq<bool>, log: seq<bool>, wasSet: bool) {
    start <= log && true !in log[|start|..] && (wasSet ==> log == start)
  }

  lemma LogStep(start: seq<bool>, log: seq<bool>, wasSet: bool, seen: bool)
    requires AllClear(start, log, wasSet) && (wasSet ==> seen)
    ensures ClearButLast(start, log + [seen], wasSet)
    ensures !seen ==> AllClear(start, log + [seen], wasSet)
  {
  }

  lemma LogEnd(start: seq<bool>, log: seq<bool>, wasSet: bool)
    requires AllClear(start, log, wasSet)
    ensures ClearButLast(start, log, wasSet) && start <= log && true !in log[|start|..]
  {
  }

  lemma LogStart(log: seq<bool>, wasSet: bool)
    ensures AllClear(log, log, wasSet)
  {
  }

  lemma {:induction false} NothingReported(entries: seq<Entry>, mount: string, total: nat, n: nat)
    requires n <= |entries| && total > 0 && Reports(entries, mount, total, n) == []
    ensures forall i :: 0 <= i < n ==> !Accepted(entries[i], mount)
  {
    hide Accepted, Percent;
    if n > 0 {
      NothingReported(entries, mount, total, n - 1);
    }
  }

  /**
    The flag stays set: a later extraction that begins with it set, and yet makes all the reads of
    a completed one, was given an image with nothing to unpack.
   */
  lemma CancelSticks(start: seq<bool>, log: seq<bool>, entries: seq<Entry>, mount: string, total: nat)
    requires total > 0 && ClearButLast(start, log, true)
    requires |log| - |start| == |Reports(entries, mount, total, |entries|)| + 1
    ensures forall i :: 0 <= i < |entries| ==> !Accepted(entries[i], mount)
  {
    hide Accepted;
    assert log[|start|];
    NothingReported(entries, mount, total, |entries|);
  }

  // ---------- the loop ----------

  /** What a run starts from. */
  datatype Start = Start(nodes: map<Path, Node>, clock: nat, log: seq<bool>, wasSet: bool, readsDone: nat)

  /** What the loop leaves, however it ends: everything is tracked, and the log is in order. */
  ghost predicate Stopped(tree: FileTree, list: ExtractedFiles, flag: CancelFlag, mount: string, b: Start, reported: nat)
    reads tree, list, list.files, flag
  {
    && list.Valid() && Sound(b.nodes, tree.nodes, Resolve(mount), list.Contents(), tree.refused)
    && tree.clock >= b.clock && FlagKept(flag, b, reported)
  }

  /** The flag after so many reads. */
  ghost predicate FlagKept(flag: CancelFlag, b: Start, reported: nat)
    reads flag
  {
    && flag.Valid() && flag.readCount == b.readsDone + reported
    && (flag.cancelled <==> b.wasSet || flag.SetBetween(b.readsDone, flag.readCount))
    && ClearButLast(b.log, flag.log, b.wasSet) && |flag.log| - |b.log| == reported
    && forall k :: 0 <= k < reported ==> ReadRight(flag, b, k)
  }

  /** Read `k` saw whether the flag had been set by then. */
  ghost predicate ReadRight(flag: CancelFlag, b: Start, k: nat)
    reads flag
  {
    && |b.log| + k < |flag.log|
    && (flag.log[|b.log| + k] <==> b.wasSet || flag.SetBetween(b.readsDone, b.readsDone + k + 1))
  }

  /** What holds while the loop goes on: the first `n` entries are delivered, no read saw the flag. */
  ghost predicate Going(tree: FileTree, list: ExtractedFiles, flag: CancelFlag, mount: string, entries: seq<Entry>,
                        n: nat, b: Start, reported: nat)
    requires n <= |entries|
    reads tree, list, list.files, flag
  {
    && Stopped(tree, list, flag, mount, b, reported)
    && Delivered(entries, mount, n, b.nodes, tree.nodes, tree.Denied(b.clock))
    && Explained(entries, mount, n, b.nodes, tree.nodes)
    && AllClear(b.log, flag.log, b.wasSet)
  }

  /** The last read saw the flag set. */
  ghost predicate SeenLast(start: seq<bool>, log: seq<bool>) {
    |log| > |start| && log[|log| - 1]
  }

  ghost function Begin(tree: FileTree, flag: CancelFlag): Start
    reads tree, flag
  {
    Start(tree.nodes, tree.clock, flag.log, flag.cancelled, flag.readCount)
  }

  lemma FlagAtFirst(tree: FileTree, flag: CancelFlag)
    requires flag.Valid()
    ensures var b := Begin(tree, flag); FlagKept(flag, b, 0) && AllClear(b.log, flag.log, b.wasSet)
  {
  }

  lemma ClearIsUnseen(start: seq<bool>, log: seq<bool>, wasSet: bool)
    requires AllClear(start, log, wasSet)
    ensures !SeenLast(start, log)
  {
  }

  lemma FlagMeans(flag: CancelFlag, b: Start, reported: nat)
    requires FlagKept(flag, b, reported)
    ensures flag.Valid() && (b.wasSet ==> flag.cancelled)
    ensures ClearButLast(b.log, flag.log, b.wasSet) && |flag.log| - |b.log| == reported
  {
  }

  /** A flag that is not set and that nobody sets is not seen. */
  ghost predicate Quiet(flag: CancelFlag)
    reads flag
  {
    !flag.cancelled && forall k :: !flag.schedule(k)
  }

  lemma QuietUnseen(flag: CancelFlag, b: Start, reported: nat)
    requires FlagKept(flag, b, reported) && !b.wasSet && forall k :: !flag.schedule(k)
    ensures Quiet(flag) && !SeenLast(b.log, flag.log) && true !in flag.log[|b.log|..]
  {
    forall k | |b.log| <= k < |flag.log|
      ensures !flag.log[k]
    {
      assert ReadRight(flag, b, k - |b.log|);
    }
  }

  lemma StillHindered(entries: seq<Entry>, mount: string, d: nat, before: map<Path, Node>, denied: bool, later: bool)
    requires d < |entries| && Hindered(entries, mount, d, before, denied) && (denied ==> later)
    ensures Hindered(entries, mount, d, before, later)
  {
  }

  /** A report to the callback, which reads the flag. */
  method Report(flag: CancelFlag, ghost b: Start, ghost reported: nat) returns (seen: bool)
    requires FlagKept(flag, b, reported) && AllClear(b.log, flag.log, b.wasSet)
    modifies flag
    ensures FlagKept(flag, b, reported + 1)
    ensures if seen then SeenLast(b.log, flag.log) else AllClear(b.log, flag.log, b.wasSet)
  {
    ghost var log, readsDone := flag.log, flag.readCount;
    NobodySet(flag, b, reported);
    seen := flag.Read();
    LogStep(b.log, log, b.wasSet, seen);
    SetNext(flag, b.readsDone, readsDone);
    forall k | 0 <= k < reported + 1
      ensures ReadRight(flag, b, k)
    {
      assert k < reported ==> old(ReadRight(flag, b, k));
    }
  }

  lemma SetNext(flag: CancelFlag, first: nat, last: nat)
    requires first <= last
    ensures flag.SetBetween(first, last + 1) <==> flag.SetBetween(first, last) || flag.schedule(last)
  {
  }

  lemma NobodySet(flag: CancelFlag, b: Start, reported: nat)
    requires FlagKept(flag, b, reported) && AllClear(b.log, flag.log, b.wasSet)
    ensures b.wasSet ==> flag.cancelled
  {
  }

  /**
    One turn of the loop, for an accepted entry: unpack it, then report. `told` is false when
    unpacking failed; on cancellation the turn rolls back.
   */
  method Turn(tree: FileTree, list: ExtractedFiles, flag: CancelFlag, mount: string, entries: seq<Entry>, n: nat,
              ghost b: Start, ghost reported: nat)
    returns (told: bool, goOn: bool)
    requires mount != "" && mount[0] == '/' && n < |entries| && Accepted(entries[n], mount)
    requires Going(tree, list, flag, mount, entries, n, b, reported)
    modifies tree, list, list.files, flag
    ensures list.files == old(list.files) || fresh(list.files)
    ensures Stopped(tree, list, flag, mount, b, if told then reported + 1 else reported)
    ensures goOn ==> told && Going(tree, list, flag, mount, entries, n + 1, b, reported + 1)
    ensures told && !goOn ==> SeenLast(b.log, flag.log)
    ensures !told ==> Hindered(entries, mount, n, b.nodes, tree.Denied(b.clock))
  {
    hide Sound, Delivered, Explained, Accepted, AllClear, ClearButLast, Clash, FlagKept, SeenLast;
    told := UnpackEntry(tree, list, mount, entries, n, b.nodes, b.clock);
    goOn := told;
    if told {
      var seen := Report(flag, b, reported);
      if seen {
        RollBack(tree, list, b.nodes, Resolve(mount));
        goOn := false;
      }
    }
  }

  /** An entry without an acceptable path is passed over. */
  lemma PassOver(tree: FileTree, list: ExtractedFiles, flag: CancelFlag, mount: string, entries: seq<Entry>, n: nat,
                 b: Start, reported: nat)
    requires n < |entries| && !Accepted(entries[n], mount)
    requires Going(tree, list, flag, mount, entries, n, b, reported)
    ensures Going(tree, list, flag, mount, entries, n + 1, b, reported)
  {
  }

  /**
    One turn for any entry. Afterwards the run goes on behind it, or has stopped: behind it if it
    was still `told`, else at it.
   */
  method Visit(tree: FileTree, list: ExtractedFiles, flag: CancelFlag, mount: string, entries: seq<Entry>, n: nat,
               ghost b: Start, ghost reported: nat)
    returns (told: bool, goOn: bool)
    requires mount != "" && mount[0] == '/' && n < |entries|
    requires Going(tree, list, flag, mount, entries, n, b, reported)
    modifies tree, list, list.files, flag
    ensures list.files == old(list.files) || fresh(list.files)
    ensures told ==> Accepted(entries[n], mount)
    ensures goOn && Accepted(entries[n], mount) ==> told
    ensures AtEntry(tree, list, flag, mount, entries, if told || goOn then n + 1 else n, b,
                    if told then reported + 1 else reported, goOn)
  {
    hide Going, Stopped, Accepted, SeenLast, Hindered;
    told, goOn := false, true;
    if Accepted(entries[n], mount) {
      told, goOn := Turn(tree, list, flag, mount, entries, n, b, reported);
    } else {
      PassOver(tree, list, flag, mount, entries, n, b, reported);
    }
  }

  /** The run has stopped at entry `n`: the last read saw the flag, or the entry could not be placed. */
  ghost predicate Halted(tree: FileTree, list: ExtractedFiles, flag: CancelFlag, mount: string, entries: seq<Entry>,
                         n: nat, b: Start, reported: nat)
    requires n <= |entries|
    reads tree, list, list.files, flag
  {
    && Stopped(tree, list, flag, mount, b, reported)
    && (|| SeenLast(b.log, flag.log)
        || (n < |entries| && Hindered(entries, mount, n, b.nodes, tree.Denied(b.clock))))
  }

  /** Between two turns: the run goes on, or has stopped. */
  ghost predicate AtEntry(tree: FileTree, list: ExtractedFiles, flag: CancelFlag, mount: string, entries: seq<Entry>,
                          n: nat, b: Start, reported: nat, goOn: bool)
    requires n <= |entries|
    reads tree, list, list.files, flag
  {
    if goOn then Going(tree, list, flag, mount, entries, n, b, reported)
    else Halted(tree, list, flag, mount, entries, n, b, reported)
  }

  /** The loop over the archive; what it listed is still to be taken back when it fails. */
  method Unpack(tree: FileTree, list: ExtractedFiles, flag: CancelFlag, mount: string, entries: seq<Entry>,
                total: nat, ghost b: Start)
    returns (ok: bool, reports: seq<nat>, done: nat)
    requires mount != "" && mount[0] == '/' && total > 0
    requires Going(tree, list, flag, mount, entries, 0, b, 0)
    modifies tree, list, list.files, flag
    ensures done <= |entries| && reports == Reports(entries, mount, total, done)
    ensures (ok ==> done == |entries|) && AtEntry(tree, list, flag, mount, entries, done, b, |reports|, ok)
  {
    ReportsStart(entries, mount, total);
    assert AtEntry(tree, list, flag, mount, entries, 0, b, 0, true);
    hide Going, AtEntry, Percent, Accepted, Reports, Bytes;
    ok, reports, done := true, [], 0;
    var bytes := 0;
    while done < |entries| && ok
      invariant done <= |entries| && (list.files == old(list.files) || fresh(list.files))
      invariant AtEntry(tree, list, flag, mount, entries, done, b, |reports|, ok)
      invariant bytes == Bytes(entries, done) && reports == Reports(entries, mount, total, done)
      decreases |entries| - done, ok
    {
      StillGoing(tree, list, flag, mount, entries, done, b, |reports|);
      var told;
      told, ok := Visit(tree, list, flag, mount, entries, done, b, |reports|);
      bytes, reports, done := Tally(entries, mount, total, done, told, ok, bytes, reports);
    }
  }

  /** Counts an entry that was passed, and what was reported for it. */
  method Tally(entries: seq<Entry>, mount: string, total: nat, n: nat, told: bool, goOn: bool, bytes: nat, reports: seq<nat>)
    returns (bytes': nat, reports': seq<nat>, n': nat)
    requires n < |entries| && total > 0
    requires bytes == Bytes(entries, n) && reports == Reports(entries, mount, total, n)
    requires (told ==> Accepted(entries[n], mount)) && (goOn && Accepted(entries[n], mount) ==> told)
    ensures n' == (if told || goOn then n + 1 else n) <= |entries|
    ensures bytes' == Bytes(entries, n') && reports' == Reports(entries, mount, total, n')
    ensures |reports'| == if told then |reports| + 1 else |reports|
  {
    hide Percent, Accepted, Reports, Bytes;
    ReportsStep(entries, mount, total, n);
    bytes', reports', n' := bytes, reports, n;
    if told || goOn {
      bytes', n' := bytes + (if entries[n].size > 0 then entries[n].size else 0), n + 1;
    }
    if told {
      reports' := reports + [Percent(bytes', total)];
    }
  }

  lemma StillGoing(tree: FileTree, list: ExtractedFiles, flag: CancelFlag, mount: string, entries: seq<Entry>, n: nat,
                   b: Start, reported: nat)
    requires n <= |entries| && AtEntry(tree, list, flag, mount, entries, n, b, reported, true)
    ensures Going(tree, list, flag, mount, entries, n, b, reported)
  {
  }

  lemma StartSound(nodes: map<Path, Node>, m: Path, entries: seq<Entry>, mount: string)
    requires m == Resolve(mount) && PrefixDirs(nodes, m)
    requires Rooted(nodes) && forall p :: m <= p ==> !Leaf(nodes, p)
    ensures Sound(nodes, nodes, m, [], {}) && forall denied :: Delivered(entries, mount, 0, nodes, nodes, denied)
    ensures Explained(entries, mount, 0, nodes, nodes)
  {
    forall p | p in nodes && m <= p
      ensures nodes[p] == Dir
    {
      assert Leaf(nodes, p) <==> nodes[p] != Dir;
    }
  }

  lemma SoundOutside(before: map<Path, Node>, nodes: map<Path, Node>, m: Path,
                     files: seq<string>, refused: set<Path>)
    requires Sound(before, nodes, m, files, refused)
    ensures SameOutside(before, nodes, m) && Rooted(nodes)
  {
  }

  /** Fewer entries make no more reports. */
  lemma {:induction false} ReportsGrow(entries: seq<Entry>, mount: string, total: nat, d: nat, n: nat)
    requires d <= n <= |entries| && total > 0
    ensures |Reports(entries, mount, total, d)| <= |Reports(entries, mount, total, n)|
  {
    hide Accepted, Percent;
    if d < n {
      ReportsGrow(entries, mount, total, d, n - 1);
    }
  }

  /** How many reports the entries of an image call for. */
  function ReportCount(entries: seq<Entry>, mount: string, total: nat): nat
    requires total > 0
  {
    |Reports(entries, mount, total, |entries|)|
  }

  /** Where and why a run stopped that did not succeed. */
  ghost predicate Excused(entries: seq<Entry>, mount: string, endsAtEof: bool, total: nat, b: Start, log: seq<bool>,
                          denied: bool, result: IsoResult, reports: seq<nat>, stop: nat)
    requires total > 0
  {
    && stop <= |entries| && reports == Reports(entries, mount, total, stop)
    && (result == ArchiveError ==> stop == |entries| && !endsAtEof && !SeenLast(b.log, log))
    && (result == ExtractFailed ==>
          SeenLast(b.log, log) || (stop < |entries| && Hindered(entries, mount, stop, b.nodes, denied)))
  }

  /** No file entry has bad data or no place. */
  ghost predicate Smooth(entries: seq<Entry>, mount: string, before: map<Path, Node>) {
    forall d :: 0 <= d < |entries| ==> !Hindered(entries, mount, d, before, false)
  }

  /**
    iso_extract_to_mountpoint on an ISO 9660 image. `entries` is what the archive reader yields
    and `endsAtEof` whether it then reports the end of the archive rather than an error. `stop` is
    the entry a failed run stopped at.
   */
  method Extract(tree: FileTree, flag: CancelFlag, mount: string, entries: seq<Entry>,
                 endsAtEof: bool, total: nat)
    returns (result: IsoResult, reports: seq<nat>, ghost stop: nat)
    requires mount != "" && mount[0] == '/' && total > 0
    requires PrefixDirs(tree.nodes, Resolve(mount))
    requires Rooted(tree.nodes) && forall p :: Resolve(mount) <= p ==> !Leaf(tree.nodes, p)
    requires tree.refused == {} && flag.Valid()
    modifies tree, flag
    // A failed run leaves no file or link behind, except those the system refused to remove.
    ensures result != IsoOk ==> forall p :: Leaf(tree.nodes, p) && Resolve(mount) <= p ==> p in tree.refused
    ensures SameOutside(old(tree.nodes), tree.nodes, Resolve(mount)) && Rooted(tree.nodes)
    // A successful run delivered every entry and told the callback about each one.
    ensures result == IsoOk ==>
              && endsAtEof && Explained(entries, mount, |entries|, old(tree.nodes), tree.nodes)
              && Delivered(entries, mount, |entries|, old(tree.nodes), tree.nodes, tree.Denied(old(tree.clock)))
    ensures result == IsoOk ==> reports == Reports(entries, mount, total, |entries|) + [100]
    ensures result in {IsoOk, ExtractFailed, ArchiveError} && Steady(reports)
    // A run fails only for a reason: the archive, the flag, or an entry that could not be placed.
    ensures result != IsoOk ==>
              Excused(entries, mount, endsAtEof, total, old(Begin(tree, flag)), flag.log,
                      tree.Denied(old(tree.clock)), result, reports, stop)
    // The flag is read once for each report, sees exactly what was set by then, and stays set.
    ensures FlagKept(flag, old(Begin(tree, flag)), |reports|)
    // Success is a matter of getting as far as the last read, which itself decides nothing.
    ensures result == IsoOk <==> |reports| == ReportCount(entries, mount, total) + 1
  {
    hide Sound, Delivered, Explained, Reports, Percent, Bytes, Steady, AllClear, ClearButLast, FlagKept, SeenLast, Hindered;
    StartSound(tree.nodes, Resolve(mount), entries, mount);
    var list := new ExtractedFiles();
    ghost var b := Begin(tree, flag);
    FlagAtFirst(tree, flag);
    var ok;
    var done;
    ok, reports, done := Unpack(tree, list, flag, mount, entries, total, b);
    stop := done;
    ReportsSteady(entries, mount, total, done);
    ReportsGrow(entries, mount, total, done, |entries|);
    result := if ok then IsoOk else ExtractFailed;
    if ok {
      ClearIsUnseen(b.log, flag.log, b.wasSet);
      if !endsAtEof {
        result := ArchiveError;
      }
    }
    if result != IsoOk {
      ghost var denied := tree.Denied(b.clock);
      RollBack(tree, list, b.nodes, Resolve(mount));
      if !ok && !SeenLast(b.log, flag.log) {
        StillHindered(entries, mount, done, b.nodes, denied, tree.Denied(b.clock));
      }
    } else {
      SteadyToTheEnd(reports);
      var seen := Report(flag, b, |reports|);
      reports := reports + [100];
    }
    SoundOutside(b.nodes, tree.nodes, Resolve(mount), list.Contents(), tree.refused);
  }

  // ---------- success, and a cancellation that comes too late ----------

  /** What the image lists at this node: files that no later link replaces, links, directories and those before. */
  ghost predicate Lists(entries: seq<Entry>, mount: string, before: map<Path, Node>, p: Path, node: Node) {
    match node
    case File =>
      exists i :: 0 <= i < |entries| && IsFileOf(entries, mount, p, i)
                  && forall j :: i < j < |entries| ==> !ReplacedBy(entries, mount, p, j)
    case Link => exists i :: 0 <= i < |entries| && ReplacedBy(entries, mount, p, i)
    case Dir => IsDir(before, p) || exists i :: 0 <= i < |entries| && MadeFor(entries, mount, p, i)
  }

  /** Every entry that asks for something has a place, good data, and no file comes where a link is. */
  ghost predicate Tidy(entries: seq<Entry>, mount: string, before: map<Path, Node>) {
    forall d :: 0 <= d < |entries| && Accepted(entries[d], mount) && MakesDirs(entries[d]) ==>
      && Placeable(entries, mount, d, before)
      && (entries[d].kind.Regular? ==> entries[d].dataOk && !Clash(entries, mount, d, before))
  }

  lemma TidyIsSmooth(entries: seq<Entry>, mount: string, before: map<Path, Node>)
    requires Tidy(entries, mount, before)
    ensures Smooth(entries, mount, before)
  {
    hide Accepted, Placeable, Clash;
  }

  /** The last link of the image at this node. */
  lemma {:induction false} LastLink(entries: seq<Entry>, mount: string, p: Path, i: nat) returns (k: nat)
    requires i < |entries| && ReplacedBy(entries, mount, p, i)
    ensures i <= k < |entries| && ReplacedBy(entries, mount, p, k)
    ensures forall j :: k < j < |entries| ==> !ReplacedBy(entries, mount, p, j)
    decreases |entries| - i
  {
    k := i;
    if j :| i < j < |entries| && ReplacedBy(entries, mount, p, j) {
      k := LastLink(entries, mount, p, j);
    }
  }

  /** A whole image delivered without a refusal. */
  ghost predicate AllThere(entries: seq<Entry>, mount: string, before: map<Path, Node>, nodes: map<Path, Node>) {
    && Delivered(entries, mount, |entries|, before, nodes, false) && Explained(entries, mount, |entries|, before, nodes)
    && Tidy(entries, mount, before) && Rooted(nodes)
    && forall p :: Resolve(mount) <= p ==> !Leaf(before, p)
  }

  /** What is there is listed. */
  lemma NothingElse(entries: seq<Entry>, mount: string, before: map<Path, Node>, nodes: map<Path, Node>, p: Path)
    requires AllThere(entries, mount, before, nodes) && Resolve(mount) <= p && p in nodes
    ensures Lists(entries, mount, before, p, nodes[p])
  {
    hide Accepted, Placeable, Clash, MakesDirs, Rooted, Delivered;
    assert !Leaf(before, p);
    if nodes[p] == File {
      var i :| 0 <= i < |entries| && IsFileOf(entries, mount, p, i);
      forall j | i < j < |entries|
        ensures !ReplacedBy(entries, mount, p, j)
      {
        if ReplacedBy(entries, mount, p, j) {
          LinkIsThere(entries, mount, before, nodes, p, j);
        }
      }
    }
  }

  lemma LinkIsThere(entries: seq<Entry>, mount: string, before: map<Path, Node>, nodes: map<Path, Node>, p: Path, i: nat)
    requires AllThere(entries, mount, before, nodes) && i < |entries| && ReplacedBy(entries, mount, p, i)
    ensures p in nodes && nodes[p] == Link
  {
    hide Accepted, Placeable, Clash, Rooted, Explained;
    var k := LastLink(entries, mount, p, i);
    assert Placeable(entries, mount, k, before);
    assert Holds(entries, mount, k, |entries|, nodes);
  }

  lemma FileIsThere(entries: seq<Entry>, mount: string, before: map<Path, Node>, nodes: map<Path, Node>, p: Path, i: nat)
    requires AllThere(entries, mount, before, nodes) && i < |entries| && IsFileOf(entries, mount, p, i)
    ensures p in nodes
    ensures (forall j :: i < j < |entries| ==> !ReplacedBy(entries, mount, p, j)) ==> nodes[p] == File
  {
    hide Accepted, Placeable, Clash, Rooted, Explained;
    if j :| i < j < |entries| && ReplacedBy(entries, mount, p, j) {
      LinkIsThere(entries, mount, before, nodes, p, j);
    } else {
      assert Holds(entries, mount, i, |entries|, nodes);
    }
  }

  /** The directory made for an entry is there, and so are those on the way to it. */
  lemma DirIsThere(entries: seq<Entry>, mount: string, before: map<Path, Node>, nodes: map<Path, Node>, p: Path, i: nat)
    requires mount != "" && mount[0] == '/'
    requires AllThere(entries, mount, before, nodes) && i < |entries| && MadeFor(entries, mount, p, i)
    ensures IsDir(nodes, p)
  {
    var e := entries[i];
    if e.kind.Directory? {
      OwnDirIsThere(entries, mount, before, nodes, i);
      RootedAbove(nodes, p, DirPath(e, mount));
    } else {
      ParentOnTheWay(e, mount, ParentOf(Target(e, mount)));
      PlaceableApart(entries, mount, i, before);
      hide Accepted, Placeable, Clash, Explained, Delivered, Rooted;
      if e.kind.Regular? {
        FileIsThere(entries, mount, before, nodes, TargetPath(e, mount), i);
      } else {
        LinkIsThere(entries, mount, before, nodes, TargetPath(e, mount), i);
      }
      AboveBoth(p, DirPath(e, mount), TargetPath(e, mount));
      RootedBelow(nodes, p, TargetPath(e, mount));
    }
  }

  lemma OwnDirIsThere(entries: seq<Entry>, mount: string, before: map<Path, Node>, nodes: map<Path, Node>, i: nat)
    requires AllThere(entries, mount, before, nodes) && i < |entries|
    requires Accepted(entries[i], mount) && entries[i].kind.Directory?
    ensures IsDir(nodes, DirPath(entries[i], mount))
  {
    hide Accepted, Placeable, Clash, Explained, Rooted;
    assert Placeable(entries, mount, i, before);
    assert Holds(entries, mount, i, |entries|, nodes);
    NotReplaced(entries, mount, before, nodes, i);
  }

  /** No link comes where a directory is listed. */
  lemma NotReplaced(entries: seq<Entry>, mount: string, before: map<Path, Node>, nodes: map<Path, Node>, i: nat)
    requires Tidy(entries, mount, before) && i < |entries|
    requires Accepted(entries[i], mount) && entries[i].kind.Directory?
    ensures forall j :: i < j < |entries| ==> !ReplacedBy(entries, mount, TargetPath(entries[i], mount), j)
  {
    hide Accepted, Clash;
    forall j | i < j < |entries| && ReplacedBy(entries, mount, TargetPath(entries[i], mount), j)
      ensures false
    {
      NothingObstructs(entries, mount, i, j, before);
    }
  }

  lemma RootedAbove(nodes: map<Path, Node>, p: Path, q: Path)
    requires Rooted(nodes) && IsDir(nodes, q) && p <= q
    ensures IsDir(nodes, p)
  {
    assert p == q || Above(p, q);
  }

  lemma RootedBelow(nodes: map<Path, Node>, p: Path, q: Path)
    requires Rooted(nodes) && q in nodes && Above(p, q)
    ensures IsDir(nodes, p)
  {
  }

  lemma AboveBoth(p: Path, way: Path, path: Path)
    requires p <= way && RightBelow(way, path) && path != way
    ensures Above(p, path)
  {
  }

  lemma PlaceableApart(entries: seq<Entry>, mount: string, i: nat, before: map<Path, Node>)
    requires i < |entries| && Accepted(entries[i], mount) && MakesDirs(entries[i]) && Tidy(entries, mount, before)
    ensures entries[i].kind.Directory? || TargetPath(entries[i], mount) != DirPath(entries[i], mount)
  {
  }

  /** What is listed is there. */
  lemma EverythingListed(entries: seq<Entry>, mount: string, before: map<Path, Node>, nodes: map<Path, Node>,
                         p: Path, node: Node)
    requires mount != "" && mount[0] == '/' && AllThere(entries, mount, before, nodes)
    requires Lists(entries, mount, before, p, node)
    ensures p in nodes && nodes[p] == node
  {
    hide Accepted, Tidy, Rooted, Explained, MadeFor, IsFileOf, ReplacedBy;
    match node
    case File =>
      var i :| 0 <= i < |entries| && IsFileOf(entries, mount, p, i)
               && forall j :: i < j < |entries| ==> !ReplacedBy(entries, mount, p, j);
      FileIsThere(entries, mount, before, nodes, p, i);
    case Link =>
      var i :| 0 <= i < |entries| && ReplacedBy(entries, mount, p, i);
      LinkIsThere(entries, mount, before, nodes, p, i);
    case Dir =>
      if !IsDir(before, p) {
        var i :| 0 <= i < |entries| && MadeFor(entries, mount, p, i);
        DirIsThere(entries, mount, before, nodes, p, i);
      }
  }

  /** The volume holds, below the mount point, exactly the files, links and directories that the image lists. */
  ghost predicate Exactly(entries: seq<Entry>, mount: string, before: map<Path, Node>, nodes: map<Path, Node>) {
    forall p, node :: Resolve(mount) <= p ==>
      (p in nodes && nodes[p] == node <==> Lists(entries, mount, before, p, node))
  }

  lemma DeliveredExactly(entries: seq<Entry>, mount: string, before: map<Path, Node>, nodes: map<Path, Node>)
    requires mount != "" && mount[0] == '/' && AllThere(entries, mount, before, nodes)
    ensures Exactly(entries, mount, before, nodes)
  {
    hide AllThere, Lists;
    forall p, node | Resolve(mount) <= p
      ensures p in nodes && nodes[p] == node <==> Lists(entries, mount, before, p, node)
    {
      if p in nodes {
        NothingElse(entries, mount, before, nodes, p);
      }
      if Lists(entries, mount, before, p, node) {
        EverythingListed(entries, mount, before, nodes, p, node);
      }
    }
  }

  /** Whether the run that starts from here is told of a cancellation at one of its first `n` reports. */
  ghost predicate ToldWithin(flag: CancelFlag, b: Start, n: nat) {
    n > 0 && (b.wasSet || flag.SetBetween(b.readsDone, b.readsDone + n))
  }

  /**
    With a smooth image and an obliging system, a run succeeds exactly when the archive ends well
    and no report about an entry is answered by a cancellation: whether the flag is set at the last
    report, or later, makes no difference.
   */
  method ExtractSmoothly(tree: FileTree, flag: CancelFlag, mount: string, entries: seq<Entry>,
                         endsAtEof: bool, total: nat)
    returns (result: IsoResult)
    requires mount != "" && mount[0] == '/' && total > 0
    requires PrefixDirs(tree.nodes, Resolve(mount))
    requires Rooted(tree.nodes) && forall p :: Resolve(mount) <= p ==> !Leaf(tree.nodes, p)
    requires tree.refused == {} && flag.Valid()
    requires Smooth(entries, mount, tree.nodes) && forall k :: tree.answers(k)
    modifies tree, flag
    ensures result == IsoOk <==>
              endsAtEof && !ToldWithin(flag, old(Begin(tree, flag)), ReportCount(entries, mount, total))
    // What a success leaves is the image and nothing else.
    ensures result == IsoOk && Tidy(entries, mount, old(tree.nodes)) ==>
              Exactly(entries, mount, old(tree.nodes), tree.nodes)
    ensures result == IsoOk ==>
              (flag.cancelled <==> ToldWithin(flag, old(Begin(tree, flag)), ReportCount(entries, mount, total) + 1))
  {
    hide PrefixDirs, Reports, Hindered, Steady, Delivered, Explained, Rooted, Tidy, Exactly;
    ghost var b, count := Begin(tree, flag), ReportCount(entries, mount, total);
    var reports;
    ghost var stop;
    result, reports, stop := Extract(tree, flag, mount, entries, endsAtEof, total);
    if result == IsoOk {
      assert count > 0 ==> ReadRight(flag, b, count - 1);
      if Tidy(entries, mount, b.nodes) {
        DeliveredExactly(entries, mount, b.nodes, tree.nodes);
      }
      return;
    }
    ReportsGrow(entries, mount, total, stop, |entries|);
    if SeenLast(b.log, flag.log) {
      assert ReadRight(flag, b, |reports| - 1);
    }
  }

  /** Set when only the last report is left, the flag is seen there, and the run succeeds nonetheless. */
  method ExtractCancelledLate(tree: FileTree, flag: CancelFlag, mount: string, entries: seq<Entry>, total: nat)
    returns (result: IsoResult)
    requires mount != "" && mount[0] == '/' && total > 0
    requires PrefixDirs(tree.nodes, Resolve(mount))
    requires Rooted(tree.nodes) && forall p :: Resolve(mount) <= p ==> !Leaf(tree.nodes, p)
    requires tree.refused == {} && flag.Valid()
    requires Smooth(entries, mount, tree.nodes) && forall k :: tree.answers(k)
    requires var last := flag.readCount + ReportCount(entries, mount, total);
             !flag.cancelled && !flag.SetBetween(flag.readCount, last) && flag.schedule(last)
    modifies tree, flag
    ensures result == IsoOk && flag.cancelled
  {
    hide PrefixDirs, ReportCount, Smooth;
    result := ExtractSmoothly(tree, flag, mount, entries, true, total);
  }

  lemma OneReport(total: nat)
    requires total > 0
    ensures ReportCount([Entry(Some("a"), 1, Directory, true, true)], "/", total) == 1
  {
    var e := Entry(Some("a"), 1, Directory, true, true);
    assert forall i :: 0 <= i <= 1 ==> !MatchesAt("a", "..", i);
    assert Accepted(e, "/");
    hide Percent, Accepted, Bytes;
    ReportsStart([e], "/", total);
    ReportsStep([e], "/", total, 0);
  }

  /** It happens: an image of one directory, and a flag set between the two reports. */
  method LateCancellation() returns (result: IsoResult, cancelled: bool)
    ensures result == IsoOk && cancelled
  {
    var tree := new FileTree(map[[] := Dir], k => true);
    var flag := new CancelFlag(k => k == 1);
    RootResolves();
    OneReport(1);
    hide ReportCount, Accepted, Resolve;
    result := ExtractCancelledLate(tree, flag, "/", [Entry(Some("a"), 1, Directory, true, true)], 1);
    cancelled := flag.cancelled;
  }
}
