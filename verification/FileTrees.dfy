/**
  The file system as the extraction code uses it: a tree of nodes named by their lexical path,
  and the handful of system calls that change it. Every call may be refused by the system; the
  refusals come from an arbitrary tape of answers, so a theorem about all tapes is a theorem
  about all mixes of failing calls.
 */
module FileTrees {

  type Path = seq<string>

  datatype Node = Dir | File | Link

  function Piece(cur: string): seq<string> {
    if cur == "" then [] else [cur]
  }

  /** strtok(s, "/"): the non-empty runs between slashes, `cur` being the run read so far. */
  function Tokens(s: string, cur: string): seq<string> {
    if s == "" then Piece(cur)
    else if s[0] == '/' then Piece(cur) + Tokens(s[1..], "")
    else Tokens(s[1..], cur + [s[0]])
  }

  function DropDots(tokens: seq<string>): Path {
    if tokens == [] then []
    else (if tokens[0] == "." then [] else [tokens[0]]) + DropDots(tokens[1..])
  }

  /** The node a path string names: empty components and "." stand for the directory itself. */
  function Resolve(s: string): Path {
    DropDots(Tokens(s, ""))
  }

  lemma {:induction false} TokensJoin(a: string, b: string, cur: string)
    ensures Tokens(a + "/" + b, cur) == Tokens(a, cur) + Tokens(b, "")
  {
    if a == "" {
      assert (a + "/" + b)[1..] == b;
    } else {
      assert (a + "/" + b)[1..] == a[1..] + "/" + b;
      TokensJoin(a[1..], b, if a[0] == '/' then "" else cur + [a[0]]);
    }
  }

  lemma {:induction false} DropDotsJoin(a: seq<string>, b: seq<string>)
    ensures DropDots(a + b) == DropDots(a) + DropDots(b)
  {
    if a == [] {
      assert a + b == b;
    } else {
      assert (a + b)[1..] == a[1..] + b;
      DropDotsJoin(a[1..], b);
    }
  }

  /** Joining two paths with a slash joins the nodes they name. */
  lemma ResolveJoin(a: string, b: string)
    ensures Resolve(a + "/" + b) == Resolve(a) + Resolve(b)
  {
    TokensJoin(a, b, "");
    DropDotsJoin(Tokens(a, ""), Tokens(b, ""));
  }

  lemma {:induction false} TokensAreNames(s: string, cur: string, k: nat)
    requires '/' !in cur && k < |Tokens(s, cur)|
    ensures Tokens(s, cur)[k] != "" && '/' !in Tokens(s, cur)[k]
  {
    if s != "" {
      var here := if s[0] == '/' then |Piece(cur)| else 0;
      if k >= here {
        TokensAreNames(s[1..], if s[0] == '/' then "" else cur + [s[0]], k - here);
      }
    }
  }

  lemma {:induction false} TokensOfName(name: string, cur: string)
    requires '/' !in name && cur + name != ""
    ensures Tokens(name, cur) == [cur + name]
  {
    if name == "" {
      assert cur + name == cur;
    } else {
      TokensOfName(name[1..], cur + [name[0]]);
      assert cur + [name[0]] + name[1..] == cur + name;
    }
  }

  /** `after` is `before` with some directories added on the way to `path`. */
  ghost predicate OnlyNewDirs(before: map<Path, Node>, after: map<Path, Node>, path: Path) {
    && (forall p | p in before :: p in after && after[p] == before[p])
    && (forall p | p in after && p !in before :: after[p] == Dir && p <= path)
  }

  /** `q` is a proper beginning of `p`. */
  predicate Above(q: Path, p: Path) {
    q < p
  }

  /** Everything stands in directories. */
  ghost predicate Rooted(nodes: map<Path, Node>) {
    forall p, q :: p in nodes && Above(q, p) ==> q in nodes && nodes[q] == Dir
  }

  /** What stands right above `p` is a directory. */
  predicate HasParent(nodes: map<Path, Node>, p: Path) {
    p != [] && p[..|p| - 1] in nodes && nodes[p[..|p| - 1]] == Dir
  }

  /** A node under a directory keeps the tree rooted, if what it replaces has nothing in it. */
  lemma PutRooted(nodes: map<Path, Node>, p: Path, node: Node)
    requires Rooted(nodes) && HasParent(nodes, p) && !(p in nodes && nodes[p] == Dir && node != Dir)
    ensures Rooted(nodes[p := node])
  {
    var parent := p[..|p| - 1];
    forall r, q | r in nodes[p := node] && Above(q, r)
      ensures q in nodes[p := node] && nodes[p := node][q] == Dir
    {
      if r == p {
        assert q == parent || Above(q, parent);
      } else {
        assert q in nodes && nodes[q] == Dir;
      }
    }
  }

  class FileTree {
    var nodes: map<Path, Node>
    /** The system's answer to the n-th call that it is free to refuse. */
    const answers: nat -> bool
    var clock: nat
    /** The files and links whose removal the system has refused. */
    ghost var refused: set<Path>

    constructor (nodes: map<Path, Node>, answers: nat -> bool)
      ensures this.nodes == nodes && this.answers == answers && refused == {} && clock == 0
    {
      this.nodes, this.answers, clock, refused := nodes, answers, 0, {};
    }

    /** Some call since then was refused. */
    ghost predicate Denied(since: nat)
      reads this`clock
    {
      exists k :: since <= k < clock && !answers(k)
    }

    method Ask() returns (granted: bool)
      modifies this`clock
      ensures granted == answers(old(clock)) && clock == old(clock) + 1
    {
      granted := answers(clock);
      clock := clock + 1;
    }

    /** mkdir; `ok` also covers EEXIST, which the caller ignores. */
    method Mkdir(p: Path) returns (ok: bool)
      modifies this`nodes, this`clock
      ensures ok <==> p in old(nodes) || answers(old(clock))
      ensures nodes == if p !in old(nodes) && ok then old(nodes)[p := Dir] else old(nodes)
      ensures clock == old(clock) + if p in old(nodes) then 0 else 1
    {
      if p in nodes {
        return true;
      }
      ok := Ask();
      if ok {
        nodes := nodes[p := Dir];
      }
    }

    /** unlinkat without following: removes a file or a link, never a directory. */
    method Unlink(p: Path)
      modifies this
      ensures !(p in old(nodes) && old(nodes)[p] != Dir) ==>
                nodes == old(nodes) && refused == old(refused) && clock == old(clock)
      ensures p in old(nodes) && old(nodes)[p] != Dir ==>
                && clock == old(clock) + 1
                && nodes == (if answers(old(clock)) then old(nodes) - {p} else old(nodes))
                && refused == if answers(old(clock)) then old(refused) else old(refused) + {p}
    {
      if p in nodes && nodes[p] != Dir {
        var granted := Ask();
        if granted {
          nodes := nodes - {p};
        } else {
          refused := refused + {p};
        }
      }
    }

    /** symlink: there must be a directory for the link and nothing in its place. */
    method Symlink(p: Path)
      modifies this`nodes, this`clock
      ensures var free := p !in old(nodes) && HasParent(old(nodes), p);
              && nodes == (if free && answers(old(clock)) then old(nodes)[p := Link] else old(nodes))
              && clock == old(clock) + if free then 1 else 0
    {
      if p !in nodes && HasParent(nodes, p) {
        var granted := Ask();
        if granted {
          nodes := nodes[p := Link];
        }
      }
    }

    /** open(O_WRONLY | O_CREAT | O_TRUNC | O_NOFOLLOW). */
    method OpenForWriting(p: Path) returns (ok: bool)
      modifies this`nodes, this`clock
      ensures var taken := p in old(nodes) && old(nodes)[p] != File;
              && (ok <==> !taken && answers(old(clock)))
              && clock == old(clock) + if taken then 0 else 1
      ensures nodes == if ok then old(nodes)[p := File] else old(nodes)
    {
      if p in nodes && nodes[p] != File {
        return false;
      }
      ok := Ask();
      if ok {
        nodes := nodes[p := File];
      }
    }
  }
}
