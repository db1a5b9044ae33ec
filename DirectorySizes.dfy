/**
 * No space left on device (day 7). A terminal transcript of `cd` and `ls`
 * commands is replayed into a table from directory path to listing; the
 * total size of every directory is then found by repeated passes over the
 * table, each settling the directories whose subdirectories are all settled.
 */
module DirectorySizes {
  import opened Wrappers
  import opened Text
  import opened Seqs

  /** An entry of a listing: a file with its size, or a subdirectory by name. */
  datatype Node = File(size: nat) | Dir(name: string)

  /** Where a `cd` goes. */
  datatype CdDst = Up | Root | Dir(name: string)

  /** A command of the transcript with what it printed. */
  datatype Op = Ls(nodes: seq<Node>) | Cd(dst: CdDst)

  // ------------------------------------------------------------- parsing

  /** What `Node::build` demands: two tokens, the first a size unless it is "dir". */
  predicate NodeBuildable(line: string) {
    var t := Split(line, ' ');
    |t| >= 2 && (t[0] != "dir" ==> IsUnsigned(t[0]))
  }

  /** `Node::build`: "dir NAME" is a subdirectory, "SIZE NAME" a file of that size. */
  function NodeBuild(line: string): (n: Node)
    requires NodeBuildable(line)
    ensures n.Dir? <==> Split(line, ' ')[0] == "dir"
  {
    var t := Split(line, ' ');
    if t[0] == "dir" then Node.Dir(t[1]) else File(ParseUnsigned(t[0]))
  }

  /** A listing line as `ls` prints it; the model keeps no file names, so the file's name is a parameter. */
  function FormatNode(n: Node, fileName: string): string {
    match n
    case File(size) => ShowNat(size) + " " + fileName
    case Dir(name) => "dir " + name
  }

  /** Reading a printed listing line gives the entry back. */
  lemma NodeBuildFormat(n: Node, fileName: string)
    requires ' ' !in fileName && (n.Dir? ==> ' ' !in n.name)
    ensures NodeBuildable(FormatNode(n, fileName))
    ensures NodeBuild(FormatNode(n, fileName)) == n
  {
    match n
    case File(size) =>
      var parts := [ShowNat(size), fileName];
      assert Join(parts, ' ') == FormatNode(n, fileName);
      assert ' ' !in parts[0] && parts[0] != "dir" by {
        assert IsDigits(parts[0]);
        assert IsDigit(parts[0][0]) && "dir"[0] == 'd';
      }
      SplitJoin(parts, ' ');
      ParseShowNat(size);
    case Dir(name) =>
      var parts := ["dir", name];
      assert Join(parts, ' ') == FormatNode(n, fileName);
      SplitJoin(parts, ' ');
  }

  /** What `CdDst::build` demands: a line without ".." or "/" has a second token. */
  predicate CdBuildable(line: string) {
    Contains(line, "..") || Contains(line, "/") || |Split(line, ' ')| >= 2
  }

  /** `CdDst::build`: ".." anywhere means up, else "/" anywhere means the root, else the second token. */
  function CdBuild(line: string): (d: CdDst)
    requires CdBuildable(line)
    ensures d == Up <==> Contains(line, "..")
    ensures d == Root <==> !Contains(line, "..") && Contains(line, "/")
  {
    if Contains(line, "..") then Up
    else if Contains(line, "/") then Root
    else CdDst.Dir(Split(line, ' ')[1])
  }

  /** A `cd` command as the transcript writes it. */
  function FormatCd(d: CdDst): string {
    match d
    case Up => "cd .."
    case Root => "cd /"
    case Dir(name) => "cd " + name
  }

  /** Reading a written `cd` gives its target back, for names free of spaces, "/" and "..". */
  lemma CdBuildFormat(d: CdDst)
    requires d.Dir? ==> ' ' !in d.name && '/' !in d.name && !Contains(d.name, "..")
    ensures CdBuildable(FormatCd(d))
    ensures CdBuild(FormatCd(d)) == d
  {
    match d
    case Up =>
      assert OccursAt("cd ..", "..", 3);
    case Root =>
      assert "cd " + "/" == "cd /";
      ContainsAfter("cd ", "/", "/");
      ContainsChar("/", '/');
      ContainsAfter("cd ", "/", "..");
    case Dir(name) =>
      ContainsAfter("cd ", name, "..");
      ContainsAfter("cd ", name, "/");
      ContainsChar(name, '/');
      var parts := ["cd", name];
      assert Join(parts, ' ') == FormatCd(d);
      SplitJoin(parts, ' ');
  }

  /** The test lines: "cd .." goes up and "cd /" goes to the root. */
  lemma CdBuildExamples()
    ensures CdBuildable("cd ..") && CdBuild("cd ..") == Up
    ensures CdBuildable("cd /") && CdBuild("cd /") == Root
  {
    CdBuildFormat(Up);
    CdBuildFormat(Root);
  }

  // --------------------------------------------------------------- paths

  /** One stack entry's share of a path: the root "/" as it is, any other name followed by "/". */
  function Entry(dir: string): string {
    if dir == "/" then dir else dir + "/"
  }

  /** The path of a directory stack, read from the bottom entry up. */
  function PathOf(stack: seq<string>): string {
    if stack == [] then "" else PathOf(stack[..|stack| - 1]) + Entry(stack[|stack| - 1])
  }

  /** `build_path`: appends every entry, and a "/" after each one that is not "/". */
  method BuildPath(dirStack: seq<string>) returns (path: string)
    ensures path == PathOf(dirStack)
  {
    path := "";
    for i := 0 to |dirStack|
      invariant path == PathOf(dirStack[..i])
    {
      assert dirStack[..i + 1][..i] == dirStack[..i];
      var dir := dirStack[i];
      ghost var before := path;
      path := path + dir;
      if dir != "/" {
        path := path + "/";
        assert path == before + (dir + "/");
      }
      assert path == before + Entry(dir);
    }
    assert dirStack[..|dirStack|] == dirStack;
  }

  lemma PathExamples()
    ensures PathOf(["/"]) == "/"
    ensures PathOf(["/", "a", "b"]) == "/a/b/"
  {
    assert ["/", "a", "b"][..2] == ["/", "a"];
    assert ["/", "a"][..1] == ["/"];
    assert ["/"][..0] == [];
  }

  /** A rooted stack gives its names joined by "/", with a "/" before and after. */
  lemma {:induction false} RootedPathIsJoin(names: seq<string>)
    requires "/" !in names
    ensures PathOf(["/"] + names) == Join([""] + names + [""], '/')
  {
    if names == [] {
      RootAlone();
      assert ["/"] + names == ["/"] && [""] + names + [""] == ["", ""];
    } else {
      var n := |names| - 1;
      var init, last := names[..n], names[n];
      assert names == init + [last];
      RootedPathIsJoin(init);
      PathSnoc(["/"] + init, last);
      assert ["/"] + init + [last] == ["/"] + names;
      JoinRootedSnoc(init, last);
    }
  }

  /** Pushing a name other than "/" adds that name and a "/" to the path. */
  lemma PathSnoc(stack: seq<string>, last: string)
    requires last != "/"
    ensures PathOf(stack + [last]) == PathOf(stack) + (last + "/")
  {
    assert (stack + [last])[..|stack|] == stack;
  }

  /** The root alone has the path "/", the join of two empty names. */
  lemma RootAlone()
    ensures PathOf(["/"]) == Join(["", ""], '/') == "/"
  {
    assert ["/"][..0] == [];
    assert Join(["", ""], '/') == "" + "/" + Join([""], '/');
  }

  /** Adding a name to a rooted join puts the name and one more "/" at its end. */
  lemma JoinRootedSnoc(init: seq<string>, last: string)
    ensures Join([""] + (init + [last]) + [""], '/') == Join([""] + init + [""], '/') + (last + "/")
  {
    var j := Join([""] + init, '/');
    JoinSnoc([""] + init, "", '/');
    JoinSnoc([""] + init, last, '/');
    assert [""] + init + [last] == [""] + (init + [last]);
    JoinSnoc([""] + (init + [last]), "", '/');
    assert Join([""] + (init + [last]) + [""], '/') == j + "/" + last + "/";
  }

  /** Different rooted stacks of names without "/" give different paths, so a path names one directory. */
  lemma RootedPathInjective(a: seq<string>, b: seq<string>)
    requires forall i :: 0 <= i < |a| ==> '/' !in a[i]
    requires forall i :: 0 <= i < |b| ==> '/' !in b[i]
    requires PathOf(["/"] + a) == PathOf(["/"] + b)
    ensures a == b
  {
    var pa, pb := [""] + a + [""], [""] + b + [""];
    SplitRooted(a);
    SplitRooted(b);
    assert Split(PathOf(["/"] + a), '/') == pa;
    assert pa == pb;
    assert a == pa[1..|pa| - 1];
    assert b == pb[1..|pb| - 1];
  }

  /** Splitting a rooted path at "/" gives back its names, between two empty pieces. */
  lemma SplitRooted(names: seq<string>)
    requires forall i :: 0 <= i < |names| ==> '/' !in names[i]
    ensures Split(PathOf(["/"] + names), '/') == [""] + names + [""]
  {
    assert '/' in "/";
    assert "/" !in names;
    RootedPathIsJoin(names);
    var parts := [""] + names + [""];
    assert forall i :: 0 <= i < |parts| ==> '/' !in parts[i] by {
      forall i | 0 <= i < |parts| ensures '/' !in parts[i] {
        if 0 < i < |parts| - 1 {
          assert parts[i] == names[i - 1];
        }
      }
    }
    SplitJoin(parts, '/');
  }

  // ----------------------------------------------------- the directory table

  /** The replay state: the directory stack and the listings found so far. */
  datatype Replay = Replay(stack: seq<string>, dirs: map<string, seq<Node>>)

  /** One command of the replay: the three kinds of `cd` move the stack, `ls` files its listing under the current path. */
  function Step(st: Replay, op: Op): Replay {
    match op
    case Cd(Root) => st.(stack := st.stack[..Min(1, |st.stack|)])
    case Cd(Up) => st.(stack := if st.stack == [] then [] else st.stack[..|st.stack| - 1])
    case Cd(Dir(d)) => st.(stack := st.stack + [d])
    case Ls(nodes) => st.(dirs := st.dirs[PathOf(st.stack) := nodes])
  }

  /** The state after the commands in order, starting at the root with no listings. */
  function ReplayOps(ops: seq<Op>): Replay {
    if ops == [] then Replay(["/"], map[]) else Step(ReplayOps(ops[..|ops| - 1]), ops[|ops| - 1])
  }

  /** Command `i` is an `ls` run while the current path was `p`. */
  predicate IsLsAt(ops: seq<Op>, i: int, p: string) {
    0 <= i < |ops| && ops[i].Ls? && PathOf(ReplayOps(ops[..i]).stack) == p
  }

  /** `collect_dir_structure`: replays the commands on a stack that starts as ["/"]. */
  method CollectDirStructure(ops: seq<Op>) returns (dirs: map<string, seq<Node>>)
    ensures dirs == ReplayOps(ops).dirs
  {
    dirs := map[];
    var stack := ["/"];
    for i := 0 to |ops|
      invariant Replay(stack, dirs) == ReplayOps(ops[..i])
    {
      assert ops[..i + 1][..i] == ops[..i];
      match ops[i]
      case Cd(Root) =>
        if |stack| > 1 {
          stack := stack[..1];
        }
      case Cd(Up) =>
        if stack != [] {
          stack := stack[..|stack| - 1];
        }
      case Cd(Dir(dir)) =>
        stack := stack + [dir];
      case Ls(nodes) =>
        var path := BuildPath(stack);
        dirs := dirs[path := nodes];
    }
    assert ops[..|ops|] == ops;
  }

  /** Command `i` is the last `ls` run while the current path was `p`. */
  predicate LastLsAt(ops: seq<Op>, i: int, p: string) {
    IsLsAt(ops, i, p) && forall j :: i < j < |ops| ==> !IsLsAt(ops, j, p)
  }

  /** The commands before `n` are replayed the same way inside any longer run. */
  lemma LsAtPrefix(ops: seq<Op>, n: nat, i: int, p: string)
    requires n <= |ops| && 0 <= i < n
    ensures IsLsAt(ops[..n], i, p) == IsLsAt(ops, i, p)
  {
    assert ops[..n][..i] == ops[..i];
  }

  /** What the last command does to the entry of `p`: an `ls` at `p` writes it, anything else keeps it. */
  lemma ReplayLast(ops: seq<Op>, p: string)
    requires ops != []
    ensures IsLsAt(ops, |ops| - 1, p) ==> p in ReplayOps(ops).dirs && ReplayOps(ops).dirs[p] == ops[|ops| - 1].nodes
    ensures !IsLsAt(ops, |ops| - 1, p) ==>
      (p in ReplayOps(ops).dirs <==> p in ReplayOps(ops[..|ops| - 1]).dirs) &&
      (p in ReplayOps(ops).dirs ==> ReplayOps(ops).dirs[p] == ReplayOps(ops[..|ops| - 1]).dirs[p])
  {
    var n := |ops| - 1;
    var st := ReplayOps(ops[..n]);
    assert ReplayOps(ops) == Step(st, ops[n]);
    assert IsLsAt(ops, n, p) <==> ops[n].Ls? && PathOf(st.stack) == p;
    match ops[n]
    case Ls(nodes) =>
      assert ReplayOps(ops).dirs == st.dirs[PathOf(st.stack) := nodes];
    case Cd(_) =>
      assert ReplayOps(ops).dirs == st.dirs;
  }

  lemma {:induction false} LastLsIndex(ops: seq<Op>, p: string) returns (i: int)
    requires p in ReplayOps(ops).dirs
    ensures LastLsAt(ops, i, p) && ReplayOps(ops).dirs[p] == ops[i].nodes
  {
    if ops == [] {
      assert false;
    }
    var n := |ops| - 1;
    ReplayLast(ops, p);
    if IsLsAt(ops, n, p) {
      i := n;
    } else {
      var init := ops[..n];
      i := LastLsIndex(init, p);
      LastLsExtend(ops, i, p);
      assert init[i] == ops[i];
    }
  }

  /** The last `ls` at `p` stays the last one when the next command is not an `ls` at `p`. */
  lemma LastLsExtend(ops: seq<Op>, i: int, p: string)
    requires ops != [] && !IsLsAt(ops, |ops| - 1, p) && LastLsAt(ops[..|ops| - 1], i, p)
    ensures LastLsAt(ops, i, p)
  {
    var n := |ops| - 1;
    LsAtPrefix(ops, n, i, p);
    forall j | i < j < |ops| ensures !IsLsAt(ops, j, p) {
      if j < n {
        LsAtPrefix(ops, n, j, p);
      }
    }
  }

  /** An `ls` leaves an entry for its path, and no later command removes it. */
  lemma LsMakesKey(ops: seq<Op>, i: int, p: string)
    requires IsLsAt(ops, i, p)
    ensures p in ReplayOps(ops).dirs
  {
    LsAtPrefix(ops, i + 1, i, p);
    assert ops[..i + 1][..i] == ops[..i];
    LastLsKey(ops[..i + 1], p);
    KeysGrow(ops, i + 1, p);
  }

  /** An entry present after the first `n` commands is still present after all of them. */
  lemma {:induction false} KeysGrow(ops: seq<Op>, n: nat, p: string)
    requires n <= |ops| && p in ReplayOps(ops[..n]).dirs
    ensures p in ReplayOps(ops).dirs
  {
    if n == |ops| {
      assert ops[..n] == ops;
    } else {
      var init := ops[..|ops| - 1];
      assert init[..n] == ops[..n];
      KeysGrow(init, n, p);
      KeepsKey(ops, p);
    }
  }

  /** A final `ls` at `p` leaves an entry for `p`. */
  lemma LastLsKey(ops: seq<Op>, p: string)
    requires ops != [] && IsLsAt(ops, |ops| - 1, p)
    ensures p in ReplayOps(ops).dirs
  {
    var st := ReplayOps(ops[..|ops| - 1]);
    assert ReplayOps(ops) == Step(st, ops[|ops| - 1]);
  }

  /** No command removes an entry from the table. */
  lemma KeepsKey(ops: seq<Op>, p: string)
    requires ops != [] && p in ReplayOps(ops[..|ops| - 1]).dirs
    ensures p in ReplayOps(ops).dirs
  {
    var st := ReplayOps(ops[..|ops| - 1]);
    assert ReplayOps(ops) == Step(st, ops[|ops| - 1]);
  }

  /** The table holds exactly the paths some `ls` was run in. */
  lemma LsKeys(ops: seq<Op>, p: string)
    ensures p in ReplayOps(ops).dirs <==> exists i :: IsLsAt(ops, i, p)
  {
    if p in ReplayOps(ops).dirs {
      var i := LastLsIndex(ops, p);
      assert IsLsAt(ops, i, p);
    }
    if exists i :: IsLsAt(ops, i, p) {
      var i :| IsLsAt(ops, i, p);
      LsMakesKey(ops, i, p);
    }
  }

  /** Every path holds the listing of the last `ls` run there: a later `ls` overwrites an earlier one. */
  lemma LsLastWins(ops: seq<Op>, p: string)
    requires p in ReplayOps(ops).dirs
    ensures exists i :: LastLsAt(ops, i, p) && ReplayOps(ops).dirs[p] == ops[i].nodes
  {
    var i := LastLsIndex(ops, p);
  }

  // ------------------------------------------------------------- sizes

  /** The path `compute_dir_size` looks up for a subdirectory: the parent's path, the name and "/". */
  function ChildPath(dirPath: string, name: string): string {
    dirPath + name + "/"
  }

  /** Every subdirectory of the listing has its path among `keys`. */
  predicate ChildrenIn(keys: set<string>, dirPath: string, nodes: seq<Node>) {
    forall i :: 0 <= i < |nodes| && nodes[i].Dir? ==> ChildPath(dirPath, nodes[i].name) in keys
  }

  /** The size of a listing: its files plus the table's sizes of its subdirectories. */
  function ListingSize(sizes: map<string, nat>, dirPath: string, nodes: seq<Node>): nat
    requires ChildrenIn(sizes.Keys, dirPath, nodes)
  {
    if nodes == [] then 0
    else
      var last := nodes[|nodes| - 1];
      assert last.Dir? ==> ChildPath(dirPath, last.name) in sizes;
      ListingSize(sizes, dirPath, nodes[..|nodes| - 1]) +
        match last
        case File(size) => size
        case Dir(name) => sizes[ChildPath(dirPath, name)]
  }

  /** `compute_dir_size`: `None` when a subdirectory has no size yet, else the listing's size. */
  method ComputeDirSize(totalSizes: map<string, nat>, dirPath: string, dirNodes: seq<Node>) returns (r: Option<nat>)
    ensures r.None? <==> !ChildrenIn(totalSizes.Keys, dirPath, dirNodes)
    ensures r.Some? ==> ChildrenIn(totalSizes.Keys, dirPath, dirNodes) &&
                        r.value == ListingSize(totalSizes, dirPath, dirNodes)
  {
    var dirSize: nat := 0;
    for i := 0 to |dirNodes|
      invariant ChildrenIn(totalSizes.Keys, dirPath, dirNodes[..i])
      invariant dirSize == ListingSize(totalSizes, dirPath, dirNodes[..i])
    {
      assert dirNodes[..i + 1][..i] == dirNodes[..i];
      match dirNodes[i]
      case Dir(name) =>
        var nodePath := dirPath + name + "/";
        if nodePath in totalSizes {
          dirSize := dirSize + totalSizes[nodePath];
        } else {
          return None;
        }
      case File(size) =>
        dirSize := dirSize + size;
    }
    assert dirNodes[..|dirNodes|] == dirNodes;
    return Some(dirSize);
  }

  /** Every subdirectory of every listed directory is itself listed. */
  predicate Closed(dirs: map<string, seq<Node>>) {
    forall p :: p in dirs ==> ChildrenIn(dirs.Keys, p, dirs[p])
  }

  /** The listed paths longer than `p`; a subdirectory's path is longer than its parent's, so this shrinks going down. */
  function Longer(dirs: map<string, seq<Node>>, p: string): set<string> {
    set q | q in dirs && |q| > |p|
  }

  /**
   * The reference definition of a directory's total size: its files plus the
   * totals of its subdirectories, recursively. The first `k` entries only.
   */
  function EntriesSize(dirs: map<string, seq<Node>>, p: string, k: nat): nat
    requires Closed(dirs) && p in dirs && k <= |dirs[p]|
    decreases Longer(dirs, p), k
  {
    if k == 0 then 0
    else
      var node := dirs[p][k - 1];
      EntriesSize(dirs, p, k - 1) +
        match node
        case File(size) => size
        case Dir(name) =>
          var child := ChildPath(p, name);
          assert child in dirs;
          assert child in Longer(dirs, p) && child !in Longer(dirs, child);
          TreeSize(dirs, child)
  }

  function TreeSize(dirs: map<string, seq<Node>>, p: string): nat
    requires Closed(dirs) && p in dirs
    decreases Longer(dirs, p), |dirs[p]| + 1
  {
    EntriesSize(dirs, p, |dirs[p]|)
  }

  /** Every size in the table is the directory's total size. */
  predicate Agrees(dirs: map<string, seq<Node>>, sizes: map<string, nat>)
    requires Closed(dirs)
  {
    forall q :: q in sizes ==> q in dirs && sizes[q] == TreeSize(dirs, q)
  }

  /** With correct sizes for the subdirectories, a listing's size is the directory's total. */
  lemma {:induction false} ListingIsTreeSize(dirs: map<string, seq<Node>>, sizes: map<string, nat>, p: string, k: nat)
    requires Closed(dirs) && p in dirs && k <= |dirs[p]| && Agrees(dirs, sizes)
    requires ChildrenIn(sizes.Keys, p, dirs[p][..k])
    ensures ListingSize(sizes, p, dirs[p][..k]) == EntriesSize(dirs, p, k)
  {
    if k > 0 {
      var nodes := dirs[p][..k];
      assert nodes[..k - 1] == dirs[p][..k - 1];
      ListingIsTreeSize(dirs, sizes, p, k - 1);
    }
  }

  /** A non-empty finite set of strings has a longest member. */
  lemma LongestExists(s: set<string>) returns (t: string)
    requires s != {}
    ensures t in s && forall q :: q in s ==> |q| <= |t|
  {
    var x :| x in s;
    if s == {x} {
      t := x;
    } else {
      var u := LongestExists(s - {x});
      t := if |x| > |u| then x else u;
    }
  }

  /** A subset with at least as many elements is the whole set. */
  lemma SubsetCard(a: set<string>, b: set<string>)
    requires a <= b
    ensures |a| <= |b|
    ensures |a| == |b| ==> a == b
  {
    assert b == a + (b - a);
    assert |b| == |a| + |b - a|;
    if a != b {
      var x :| x in b && x !in a;
      assert x in b - a;
    }
  }

  /**
   * One pass of `compute_dir_sizes`: visits every listed directory, in any
   * order, and settles each unsettled one whose subdirectories all have
   * sizes. A settled size is never written again, and the longest unsettled
   * path always settles, so every pass makes progress.
   */
  method SettlePass(dirs: map<string, seq<Node>>, sizes0: map<string, nat>) returns (sizes: map<string, nat>)
    requires Closed(dirs) && sizes0.Keys <= dirs.Keys && Agrees(dirs, sizes0)
    ensures sizes0.Keys <= sizes.Keys <= dirs.Keys && Agrees(dirs, sizes)
    ensures forall q :: q in sizes0 ==> sizes[q] == sizes0[q]
    ensures sizes0.Keys != dirs.Keys ==> |sizes0| < |sizes|
  {
    sizes := sizes0;
    ghost var target := "";
    if sizes0.Keys != dirs.Keys {
      var missing :| missing in dirs.Keys && missing !in sizes0.Keys;
      assert missing in dirs.Keys - sizes0.Keys;
      target := LongestExists(dirs.Keys - sizes0.Keys);
    }
    var todo := dirs.Keys;
    while todo != {}
      invariant todo <= dirs.Keys
      invariant sizes0.Keys <= sizes.Keys <= dirs.Keys && Agrees(dirs, sizes)
      invariant forall q :: q in sizes0 ==> sizes[q] == sizes0[q]
      invariant sizes0.Keys != dirs.Keys ==> target in todo || target in sizes
      decreases todo
    {
      var dirPath :| dirPath in todo;
      todo := todo - {dirPath};
      if dirPath !in sizes {
        if sizes0.Keys != dirs.Keys && dirPath == target {
          forall i | 0 <= i < |dirs[dirPath]| && dirs[dirPath][i].Dir?
            ensures ChildPath(dirPath, dirs[dirPath][i].name) in sizes
          {
            var child := ChildPath(dirPath, dirs[dirPath][i].name);
            assert child in dirs && |child| > |target|;
          }
        }
        var size := ComputeDirSize(sizes, dirPath, dirs[dirPath]);
        if size.Some? {
          assert dirs[dirPath][..|dirs[dirPath]|] == dirs[dirPath];
          ListingIsTreeSize(dirs, sizes, dirPath, |dirs[dirPath]|);
          sizes := sizes[dirPath := size.value];
        }
      }
    }
    if sizes0.Keys != dirs.Keys {
      assert target in sizes && target !in sizes0;
      SubsetCard(sizes0.Keys, sizes.Keys);
    }
  }

  /**
   * `compute_dir_sizes`: passes until every listed directory has a size. With
   * every subdirectory listed, each pass settles at least one more, so the
   * loop ends with every directory's total size.
   */
  method ComputeDirSizes(dirs: map<string, seq<Node>>) returns (sizes: map<string, nat>)
    requires Closed(dirs)
    ensures sizes.Keys == dirs.Keys
    ensures forall p :: p in sizes ==> sizes[p] == TreeSize(dirs, p)
  {
    sizes := map[];
    var numDirs := |dirs|;
    while |sizes| < numDirs
      invariant sizes.Keys <= dirs.Keys && Agrees(dirs, sizes)
      decreases numDirs - |sizes|
    {
      sizes := SettlePass(dirs, sizes);
    }
    SubsetCard(sizes.Keys, dirs.Keys);
  }

  /** In the finished table every directory's size is its files plus its subdirectories' sizes. */
  lemma SizesSumChildren(dirs: map<string, seq<Node>>, sizes: map<string, nat>, p: string)
    requires Closed(dirs) && sizes.Keys == dirs.Keys && Agrees(dirs, sizes) && p in sizes
    ensures ChildrenIn(sizes.Keys, p, dirs[p])
    ensures sizes[p] == ListingSize(sizes, p, dirs[p])
  {
    assert dirs[p][..|dirs[p]|] == dirs[p];
    ListingIsTreeSize(dirs, sizes, p, |dirs[p]|);
  }

  /** A directory is at least as large as any of its subdirectories. */
  lemma {:induction false} ChildNoLarger(dirs: map<string, seq<Node>>, p: string, k: nat, i: nat)
    requires Closed(dirs) && p in dirs && i < k <= |dirs[p]| && dirs[p][i].Dir?
    ensures ChildPath(p, dirs[p][i].name) in dirs
    ensures TreeSize(dirs, ChildPath(p, dirs[p][i].name)) <= EntriesSize(dirs, p, k)
  {
    if i < k - 1 {
      ChildNoLarger(dirs, p, k - 1, i);
    }
  }

  /** A two-level example: the root holds a 100-byte file and directory "a" with a 50-byte file. */
  lemma TreeSizeExample(dirs: map<string, seq<Node>>)
    requires dirs == map["/" := [File(100), Node.Dir("a")], "/a/" := [File(50)]]
    ensures Closed(dirs)
    ensures TreeSize(dirs, "/a/") == 50 && TreeSize(dirs, "/") == 150
  {
    assert ChildPath("/", "a") == "/a/";
    assert Closed(dirs);
    assert EntriesSize(dirs, "/a/", 1) == 50;
    assert EntriesSize(dirs, "/", 1) == 100;
  }

  // ------------------------------------------------------------ answers

  const SmallLimit: nat := 100000
  const RequiredFreeSpace: nat := 30000000
  const TotalSpace: nat := 70000000

  /** A size counts for part one when it is below the limit. */
  function Small(size: nat): nat {
    if size < SmallLimit then size else 0
  }

  /** The sum of the small sizes among the paths `ks`. */
  ghost function SumSmall(sizes: map<string, nat>, ks: set<string>): nat
    requires ks <= sizes.Keys
  {
    if ks == {} then 0
    else
      var k :| k in ks;
      Small(sizes[k]) + SumSmall(sizes, ks - {k})
  }

  /** The sum does not depend on which path is taken first. */
  lemma SumSmallRemove(sizes: map<string, nat>, ks: set<string>, k: string)
    requires ks <= sizes.Keys && k in ks
    ensures SumSmall(sizes, ks) == Small(sizes[k]) + SumSmall(sizes, ks - {k})
    decreases ks
  {
    var j :| j in ks && SumSmall(sizes, ks) == Small(sizes[j]) + SumSmall(sizes, ks - {j});
    if j != k {
      SumSmallRemove(sizes, ks - {j}, k);
      SumSmallRemove(sizes, ks - {k}, j);
      assert ks - {j} - {k} == ks - {k} - {j};
    }
  }

  /** Part one's sum never exceeds what every path at the limit would give. */
  lemma SumSmallBound(sizes: map<string, nat>, ks: set<string>)
    requires ks <= sizes.Keys
    ensures SumSmall(sizes, ks) <= (SmallLimit - 1) * |ks|
    decreases ks
  {
    if ks != {} {
      var k :| k in ks && SumSmall(sizes, ks) == Small(sizes[k]) + SumSmall(sizes, ks - {k});
      SumSmallBound(sizes, ks - {k});
    }
  }

  /** `solve_pt1`: the sum of all directory sizes below 100000. */
  method SolvePt1(totalSizes: map<string, nat>) returns (sum: nat)
    ensures sum == SumSmall(totalSizes, totalSizes.Keys)
  {
    sum := 0;
    var todo := totalSizes.Keys;
    while todo != {}
      invariant todo <= totalSizes.Keys
      invariant sum + SumSmall(totalSizes, todo) == SumSmall(totalSizes, totalSizes.Keys)
      decreases todo
    {
      var p :| p in todo;
      SumSmallRemove(totalSizes, todo, p);
      if totalSizes[p] < SmallLimit {
        sum := sum + totalSizes[p];
      }
      todo := todo - {p};
    }
  }

  /** Deleting a directory of this size leaves the free space the update needs. */
  predicate FreesEnough(used: nat, size: nat) {
    TotalSpace + size - used >= RequiredFreeSpace
  }

  /**
   * `solve_pt2`: the smallest directory size whose deletion frees enough
   * space. The root itself always qualifies, so there is an answer.
   */
  method SolvePt2(totalSizes: map<string, nat>) returns (r: nat)
    requires "/" in totalSizes && totalSizes["/"] <= TotalSpace
    ensures exists p :: p in totalSizes && totalSizes[p] == r
    ensures FreesEnough(totalSizes["/"], r)
    ensures forall p :: p in totalSizes && FreesEnough(totalSizes["/"], totalSizes[p]) ==> r <= totalSizes[p]
  {
    var usedSpace := totalSizes["/"];
    var best: Option<nat> := None;
    var todo := totalSizes.Keys;
    while todo != {}
      invariant todo <= totalSizes.Keys
      invariant best.None? ==> forall p :: p in totalSizes - todo ==> !FreesEnough(usedSpace, totalSizes[p])
      invariant best.Some? ==> (exists p :: p in totalSizes && totalSizes[p] == best.value) &&
                               FreesEnough(usedSpace, best.value) &&
                               forall p :: p in totalSizes - todo && FreesEnough(usedSpace, totalSizes[p]) ==>
                                          best.value <= totalSizes[p]
      decreases todo
    {
      var p :| p in todo;
      var s := totalSizes[p];
      if TotalSpace + s - usedSpace >= RequiredFreeSpace && (best.None? || s < best.value) {
        best := Some(s);
      }
      todo := todo - {p};
    }
    assert FreesEnough(usedSpace, totalSizes["/"]);
    r := best.value;
  }
}
