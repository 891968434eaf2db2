/**
 * The directory tree of kernel/fs/dirtree.c: a prefix tree that must agree with a scan of the list of
 * added names. Nodes are kept in allocation order and referred to by index; the root is node 0.
 */
module DirTree {
  import opened Machine
  import opened Strings

  const NAME_SIZE: nat := 32

  datatype Inode = Inode(name: string, fid: nat, size: nat, isDirectory: bool)

  /**
   * `struct dir_t_node`. Only the bytes up to the final slash of `name` are ever written by
   * `strncpy`; the byte behind them keeps whatever the allocator left there.
   */
  datatype Node = Node(name: string, subdirs: seq<nat>, files: seq<Inode>, inode: Option<Inode>)

  ghost predicate DirName(s: string) {
    s != "" && s[|s| - 1] == SLASH
  }

  // ---- The flat view ----

  /** The linear scan the tree has to agree with. */
  function FirstNamed(added: seq<Inode>, path: string): Option<Inode> {
    if added == [] then None
    else if added[0].name == path then Some(added[0])
    else FirstNamed(added[1..], path)
  }

  /** The added files that belong into directory `dir`, in order. */
  ghost function FilesIn(added: seq<Inode>, dir: string): seq<Inode> {
    if added == [] then []
    else
      (if !DirName(added[0].name) && DirOf(added[0].name) == dir then [added[0]] else [])
      + FilesIn(added[1..], dir)
  }

  lemma {:induction false} FilesInAppend(added: seq<Inode>, f: Inode, dir: string)
    ensures FilesIn(added + [f], dir)
            == FilesIn(added, dir) + if !DirName(f.name) && DirOf(f.name) == dir then [f] else []
  {
    hide DirOf;
    if added == [] {
      assert added + [f] == [f];
      assert [f][1..] == [];
    } else {
      assert (added + [f])[1..] == added[1..] + [f];
      FilesInAppend(added[1..], f, dir);
    }
  }

  lemma {:induction false} FilesInNone(added: seq<Inode>, dir: string)
    requires forall f <- added :: DirName(f.name) || DirOf(f.name) != dir
    ensures FilesIn(added, dir) == []
  {
    hide DirOf;
    if added != [] {
      assert added[0] in added;
      FilesInNone(added[1..], dir);
    }
  }

  /** Scanning only the right directory finds what scanning everything finds. */
  lemma {:induction false} FirstInItsDirectory(added: seq<Inode>, path: string)
    requires !DirName(path)
    ensures FirstNamed(FilesIn(added, DirOf(path)), path) == FirstNamed(added, path)
  {
    hide DirOf, DirName;
    if added != [] {
      FirstInItsDirectory(added[1..], path);
      var f := added[0];
      var rest := FilesIn(added[1..], DirOf(path));
      if !DirName(f.name) && DirOf(f.name) == DirOf(path) {
        assert ([f] + rest)[1..] == rest;
      } else {
        assert [] + rest == rest;
      }
    }
  }

  lemma {:induction false} FirstNamedNone(added: seq<Inode>, path: string)
    requires forall f <- added :: f.name != path
    ensures FirstNamed(added, path) == None
  {
    if added != [] {
      assert added[0] in added;
      FirstNamedNone(added[1..], path);
    }
  }

  // ---- The shape of the tree ----

  /** The directory that contains directory `d`. */
  function Up(d: string): string
    requires d != ""
  {
    DirOf(d[..|d| - 1])
  }

  /** Node `k > 0` stands for directory `d`: the name buffer starts with it. */
  ghost predicate Names(n: Node, d: string) {
    && 2 <= |d| <= NAME_SIZE - 2 && d[|d| - 1] == SLASH && CString(d)
    && |n.name| == NAME_SIZE && d <= n.name
  }

  ghost predicate Tree(nodes: seq<Node>, dirs: seq<string>) {
    && |nodes| == |dirs| > 0 && dirs[0] == ""
    && (forall k :: 0 < k < |dirs| ==> Names(nodes[k], dirs[k]))
    && (forall i, j :: 0 <= i < j < |dirs| ==> dirs[i] != dirs[j])
    && (forall k :: 0 <= k < |nodes| ==> ChildrenOk(nodes, dirs, k))
    && (forall c :: 0 < c < |nodes| ==> HasParent(nodes, dirs, c))
  }

  ghost predicate ChildrenOk(nodes: seq<Node>, dirs: seq<string>, k: nat)
    requires |nodes| == |dirs| && k < |nodes|
  {
    forall c <- nodes[k].subdirs :: 0 < c < |nodes| && dirs[c] != "" && Up(dirs[c]) == dirs[k]
  }

  ghost predicate HasParent(nodes: seq<Node>, dirs: seq<string>, c: nat)
    requires |nodes| == |dirs| && c < |nodes|
  {
    dirs[c] != "" && exists k :: 0 <= k < |nodes| && dirs[k] == Up(dirs[c]) && c in nodes[k].subdirs
  }

  /** Every node holds exactly the added files of its directory. */
  ghost predicate Filed(nodes: seq<Node>, dirs: seq<string>, added: seq<Inode>)
    requires |nodes| == |dirs|
  {
    && (forall k :: 0 <= k < |nodes| ==> nodes[k].files == FilesIn(added, dirs[k]))
    && (forall f <- added :: !DirName(f.name) ==> DirOf(f.name) in dirs)
  }

  /**
   * The prefix comparison of both walks. Between two directories with the same parent it is exact,
   * and it never looks behind the final slash of the stored name.
   */
  lemma CompareIsExact(name: string, d: string, path: string, p: nat)
    requires 2 <= |d| <= |name| && d <= name && d[|d| - 1] == SLASH && CString(d)
    requires 1 <= p < |path| && path[p] == SLASH && CString(path)
    requires Up(d) == DirOf(path[..p])
    ensures SameN(name, path + [NUL], p + 1) <==> d == path[..p + 1]
  {
    hide SameN;
    var s := path + [NUL];
    assert s[..p + 1] == path[..p + 1];
    if d == path[..p + 1] {
      assert name[..p + 1] == d;
      SameNAccepts(name, s, p + 1);
    } else if |d| > p {
      assert d[..p + 1] != path[..p + 1] by {
        if d[..p + 1] == path[..p + 1] {
          LongerSibling(d, path, p);
        }
      }
      assert name[..p + 1] == d[..p + 1];
      SameNRefutes(name, s, p + 1, p + 1);
    } else {
      assert d != path[..|d|] by {
        if d == path[..|d|] {
          ShorterSibling(d, path, p);
        }
      }
      assert s[..|d|] == path[..|d|] && name[..|d|] == d;
      SameNRefutes(name, s, p + 1, |d|);
    }
  }

  lemma LongerSibling(d: string, path: string, p: nat)
    requires 1 <= p < |path| && path[p] == SLASH && |d| > p + 1 && d[..p + 1] == path[..p + 1]
    ensures Up(d) != DirOf(path[..p])
  {
    var u := d[..|d| - 1];
    assert u[p] == d[..p + 1][p] == SLASH;
    assert LastSlash(u) >= p;
  }

  lemma ShorterSibling(d: string, path: string, p: nat)
    requires 1 <= p < |path| && 2 <= |d| <= p && d[|d| - 1] == SLASH && d == path[..|d|]
    ensures Up(d) != DirOf(path[..p])
  {
    assert path[..p][|d| - 1] == SLASH;
    assert LastSlash(path[..p]) >= |d| - 1;
  }

  /** Where a directory of the path should hang, and whether it is there. */
  lemma ChildIsFound(nodes: seq<Node>, dirs: seq<string>, k: nat, d: string)
    requires Tree(nodes, dirs) && k < |nodes| && d != "" && Up(d) == dirs[k]
    ensures d in dirs ==> exists c <- nodes[k].subdirs :: 0 < c < |nodes| && dirs[c] == d
  {
    if d in dirs {
      var c :| 0 <= c < |dirs| && dirs[c] == d;
      assert HasParent(nodes, dirs, c);
      var j :| 0 <= j < |nodes| && dirs[j] == Up(dirs[c]) && c in nodes[j].subdirs;
      assert j == k;
    }
  }

  /** The buffer of a node freshly made for `path[..n]`, with the allocator's bytes left in place. */
  function FreshName(path: string, n: nat, junk: string): (name: string)
    requires n <= |path| && n + 2 <= NAME_SIZE && |junk| == NAME_SIZE
    ensures |name| == NAME_SIZE && path[..n] <= name
  {
    path[..n] + [junk[n], NUL] + junk[n + 2..]
  }

  /** `list_append(&node->subdirs, new_node)` for a directory that has no node yet. */
  function Grown(nodes: seq<Node>, k: nat, name: string): seq<Node>
    requires k < |nodes|
  {
    nodes[k := nodes[k].(subdirs := nodes[k].subdirs + [|nodes|])] + [Node(name, [], [], None)]
  }

  lemma GrowTree(nodes: seq<Node>, dirs: seq<string>, k: nat, name: string, d: string)
    requires Tree(nodes, dirs) && k < |nodes| && d !in dirs
    requires Names(Node(name, [], [], None), d) && Up(d) == dirs[k]
    ensures Tree(Grown(nodes, k, name), dirs + [d])
  {
    hide Up, FilesIn;
    var ns, ds := Grown(nodes, k, name), dirs + [d];
    forall j | 0 <= j < |ns|
      ensures ChildrenOk(ns, ds, j)
    {
      if j < |nodes| {
        assert ChildrenOk(nodes, dirs, j);
      }
    }
    forall c | 0 < c < |ns|
      ensures HasParent(ns, ds, c)
    {
      if c < |nodes| {
        assert HasParent(nodes, dirs, c);
        var j :| 0 <= j < |nodes| && dirs[j] == Up(dirs[c]) && c in nodes[j].subdirs;
        assert ds[j] == Up(ds[c]) && c in ns[j].subdirs;
      } else {
        assert ds[k] == Up(ds[c]) && c in ns[k].subdirs;
      }
    }
  }

  lemma GrowFiled(nodes: seq<Node>, dirs: seq<string>, k: nat, name: string, d: string, added: seq<Inode>)
    requires |nodes| == |dirs| && k < |nodes| && d !in dirs && Filed(nodes, dirs, added)
    ensures Filed(Grown(nodes, k, name), dirs + [d], added)
  {
    hide DirOf, DirName, FilesIn;
    FilesInNone(added, d);
    var ns, ds := Grown(nodes, k, name), dirs + [d];
    forall j | 0 <= j < |ns|
      ensures ns[j].files == FilesIn(added, ds[j])
    {
    }
  }

  lemma TreeRoot(nodes: seq<Node>, dirs: seq<string>)
    requires Tree(nodes, dirs)
    ensures |nodes| == |dirs| > 0 && dirs[0] == ""
  {}

  lemma NewDirectory(path: string, p: nat, name: string)
    requires CString(path) && 1 <= p < |path| && path[p] == SLASH && p + 1 <= NAME_SIZE - 2
    requires |name| == NAME_SIZE && path[..p + 1] <= name
    ensures Names(Node(name, [], [], None), path[..p + 1])
    ensures Up(path[..p + 1]) == DirOf(path[..p])
  {
    assert path[..p + 1][..p] == path[..p];
  }

  /** Changing what a node holds, not where it hangs, keeps the tree. */
  lemma ContentsKeepTree(nodes: seq<Node>, dirs: seq<string>, k: nat, files: seq<Inode>, inode: Option<Inode>)
    requires Tree(nodes, dirs) && k < |nodes|
    ensures Tree(nodes[k := nodes[k].(files := files, inode := inode)], dirs)
  {
    hide Up;
    var ns := nodes[k := nodes[k].(files := files, inode := inode)];
    forall j | 0 <= j < |ns|
      ensures ChildrenOk(ns, dirs, j)
    {
      assert ChildrenOk(nodes, dirs, j);
    }
    forall c | 0 < c < |ns|
      ensures HasParent(ns, dirs, c)
    {
      assert HasParent(nodes, dirs, c);
      var j :| 0 <= j < |nodes| && dirs[j] == Up(dirs[c]) && c in nodes[j].subdirs;
      assert dirs[j] == Up(dirs[c]) && c in ns[j].subdirs;
    }
  }

  lemma DirEntryKeeps(nodes: seq<Node>, dirs: seq<string>, added: seq<Inode>, k: nat, f: Inode)
    requires |nodes| == |dirs| && k < |nodes| && Filed(nodes, dirs, added) && DirName(f.name)
    ensures Filed(nodes[k := nodes[k].(inode := Some(f))], dirs, added + [f])
  {
    hide DirOf, FilesIn, DirName;
    var ns := nodes[k := nodes[k].(inode := Some(f))];
    forall j | 0 <= j < |ns|
      ensures ns[j].files == FilesIn(added + [f], dirs[j])
    {
      FilesInAppend(added, f, dirs[j]);
    }
  }

  lemma FileEntryKeeps(nodes: seq<Node>, dirs: seq<string>, added: seq<Inode>, k: nat, f: Inode)
    requires Tree(nodes, dirs) && k < |nodes| && Filed(nodes, dirs, added)
    requires !DirName(f.name) && DirOf(f.name) == dirs[k]
    ensures Filed(nodes[k := nodes[k].(files := nodes[k].files + [f])], dirs, added + [f])
  {
    hide DirOf, FilesIn, DirName, ChildrenOk, HasParent, Names;
    var ns := nodes[k := nodes[k].(files := nodes[k].files + [f])];
    forall j | 0 <= j < |ns|
      ensures ns[j].files == FilesIn(added + [f], dirs[j])
    {
      FilesInAppend(added, f, dirs[j]);
    }
  }

  /** Every directory above a node's directory has a node. */
  lemma {:induction false} PrefixClosed(nodes: seq<Node>, dirs: seq<string>, d: string, q: nat)
    requires Tree(nodes, dirs) && d in dirs && 1 <= q < |d| && d[q] == SLASH
    ensures d[..q + 1] in dirs
    decreases |d|
  {
    if q == |d| - 1 {
      assert d[..q + 1] == d;
    } else {
      var c :| 0 <= c < |dirs| && dirs[c] == d;
      assert HasParent(nodes, dirs, c);
      var u := d[..|d| - 1];
      assert u[q] == SLASH;
      LastSlashReaches(u, q);
      assert Up(d)[q] == d[q] && |Up(d)| < |d|;
      PrefixClosed(nodes, dirs, Up(d), q);
      assert Up(d)[..q + 1] == d[..q + 1];
    }
  }

  /** A directory of the path that has no node rules out every file below it. */
  lemma MissingDirectory(nodes: seq<Node>, dirs: seq<string>, added: seq<Inode>, path: string, p: nat)
    requires Tree(nodes, dirs) && Filed(nodes, dirs, added) && !DirName(path)
    requires 1 <= p < |path| && path[p] == SLASH && path[..p + 1] !in dirs
    ensures FirstNamed(added, path) == None
  {
    hide Tree, FilesIn;
    LastSlashReaches(path, p);
    var d := DirOf(path);
    assert d[p] == SLASH && d[..p + 1] == path[..p + 1];
    forall f | f in added
      ensures f.name != path
    {
      if f.name == path {
        PrefixClosed(nodes, dirs, d, p);
      }
    }
    FirstNamedNone(added, path);
  }

  lemma {:induction false} FilesInHasDir(added: seq<Inode>, dir: string, f: Inode)
    requires f in FilesIn(added, dir)
    ensures DirOf(f.name) == dir
  {
    hide DirOf, DirName;
    if f !in FilesIn(added[1..], dir) {
      assert f == added[0];
    } else {
      FilesInHasDir(added[1..], dir, f);
    }
  }

  /** The root's own files have no slash behind their first character. */
  lemma RootHasNoSuchFile(added: seq<Inode>, path: string)
    requires path != "" && NextSlash(path, 1) != -1
    ensures FirstNamed(FilesIn(added, ""), path) == None
  {
    hide FilesIn, FirstNamed;
    LastSlashReaches(path, NextSlash(path, 1));
    forall f | f in FilesIn(added, "")
      ensures f.name != path
    {
      FilesInHasDir(added, "", f);
    }
    FirstNamedNone(FilesIn(added, ""), path);
  }

  class Directory {
    var nodes: seq<Node>
    ghost var dirs: seq<string>
    ghost var added: seq<Inode>

    ghost predicate Valid()
      reads this
    {
      Tree(nodes, dirs) && Filed(nodes, dirs, added)
    }

    /** `dir_tree_init`. */
    constructor (root: Inode)
      ensures Valid() && added == []
    {
      nodes := [Node("/" + seq(NAME_SIZE - 1, _ => NUL), [], [], Some(root))];
      dirs := [""];
      added := [];
    }

    /** The search of one node's subdirectory list, common to insertion and lookup. */
    method FindChild(node: nat, path: string, p: nat) returns (child: Option<nat>)
      requires Valid() && node < |nodes| && CString(path)
      requires 1 <= p < |path| && path[p] == SLASH && dirs[node] == DirOf(path[..p])
      ensures child.Some? ==> child.value < |nodes| && dirs[child.value] == path[..p + 1]
      ensures child == None ==> path[..p + 1] !in dirs
    {
      hide SameN, DirOf, FilesIn, DirName;
      var list := nodes[node].subdirs;
      var i := 0;
      assert ChildrenOk(nodes, dirs, node);
      while i < |list|
        invariant 0 <= i <= |list|
        invariant forall j :: 0 <= j < i ==> 0 < list[j] < |nodes| && dirs[list[j]] != path[..p + 1]
      {
        var c := list[i];
        assert c in list;
        assert Names(nodes[c], dirs[c]);
        CompareIsExact(nodes[c].name, dirs[c], path, p);
        if SameN(nodes[c].name, path + [NUL], p + 1) {
          return Some(c);
        }
        i := i + 1;
      }
      child := None;
      assert path[..p + 1][..p] == path[..p];
      ChildIsFound(nodes, dirs, node, path[..p + 1]);
    }

    /**
     * `dir_tree_add_path`, for a name whose directories fit the fixed name buffer. Whatever bytes
     * the allocator leaves in new nodes, the tree again agrees with the list of added names.
     */
    method AddPath(file: Inode)
      requires Valid() && file.name != "" && CString(file.name)
      requires LastSlash(file.name) + 1 <= NAME_SIZE - 2
      modifies this
      ensures Valid() && added == old(added) + [file]
    {
      hide DirOf, FilesIn, LastSlash, Tree, Filed, Names;
      var path := file.name;
      var nextSlash := 0;
      var node := 0;
      RootPath(path);
      TreeRoot(nodes, dirs);
      while true
        invariant Valid() && added == old(added)
        invariant 0 <= node < |nodes| == |dirs| && 0 <= nextSlash < |path|
        invariant dirs[node] == DirOf(path[..nextSlash + 1])
        decreases |path| - nextSlash
      {
        var p := NextSlash(path, nextSlash + 1);
        if p == -1 {
          SameDir(path, nextSlash + 1, |path|);
          break;
        }
        SameDir(path, nextSlash + 1, p);
        var child := FindChild(node, path, p);
        if child.Some? {
          node := child.value;
        } else {
          assert |seq(NAME_SIZE, _ => NUL)| == NAME_SIZE;
          var junk: string :| |junk| == NAME_SIZE;
          LastSlashReaches(path, p);
          var name := FreshName(path, p + 1, junk);
          NewDirectory(path, p, name);
          GrowTree(nodes, dirs, node, name, path[..p + 1]);
          GrowFiled(nodes, dirs, node, name, path[..p + 1], added);
          nodes := Grown(nodes, node, name);
          dirs := dirs + [path[..p + 1]];
          node := |nodes| - 1;
        }
        DirOfDir(path[..p + 1]);
        nextSlash := p;
      }
      assert path[..|path|] == path;
      if path[|path| - 1] == SLASH {
        DirEntryKeeps(nodes, dirs, added, node, file);
        ContentsKeepTree(nodes, dirs, node, nodes[node].files, Some(file));
        nodes := nodes[node := nodes[node].(inode := Some(file))];
      } else {
        FileEntryKeeps(nodes, dirs, added, node, file);
        ContentsKeepTree(nodes, dirs, node, nodes[node].files + [file], nodes[node].inode);
        nodes := nodes[node := nodes[node].(files := nodes[node].files + [file])];
      }
      added := added + [file];
    }

    /** `get_slash_pos`. */
    static method GetSlashPos(s: string, n: nat) returns (pos: int)
      ensures pos == SlashFrom(s, 0, n)
    {
      var i, left := 0, n;
      while i < |s|
        invariant 0 <= i <= |s|
        invariant SlashFrom(s, 0, n) == SlashFrom(s, i, left)
      {
        if s[i] == SLASH {
          if left == 0 {
            return i;
          }
          left := left - 1;
        }
        i := i + 1;
      }
      pos := -1;
    }

    /**
     * `dir_tree_get_file` for a path that does not name a directory: the first added inode with that
     * exact name. A path with a leading slash is only looked up in the root, where names with a
     * further slash are never put.
     */
    method GetFile(path: string) returns (found: Option<Inode>)
      requires Valid() && path != "" && CString(path) && path[|path| - 1] != SLASH
      ensures found == if path[0] == SLASH && NextSlash(path, 1) != -1 then None else FirstNamed(added, path)
    {
      hide DirOf, FilesIn, LastSlash, Tree, Names, SlashFrom;
      var node := 0;
      var dirDepth := 0;
      var last := 0;
      RootPath(path);
      TreeRoot(nodes, dirs);
      SlashZero(path);
      while true
        invariant 0 <= node < |nodes| == |dirs| && 0 <= last < |path|
        invariant dirs[node] == DirOf(path[..last + 1])
        invariant last > 0 ==> path[0] != SLASH
        invariant SlashFrom(path, 0, dirDepth) == 0 ==> last == 0
        invariant SlashFrom(path, 0, dirDepth) != 0 ==>
                    path[0] != SLASH && SlashFrom(path, 0, dirDepth) == NextSlash(path, last + 1)
        decreases |path| - last
      {
        var p := GetSlashPos(path, dirDepth);
        SlashFromStep(path, 0, dirDepth);
        dirDepth := dirDepth + 1;
        if p <= 0 {
          break;
        }
        SameDir(path, last + 1, p);
        var child := FindChild(node, path, p);
        if child == None {
          MissingDirectory(nodes, dirs, added, path, p);
          return None;
        }
        node := child.value;
        DirOfDir(path[..p + 1]);
        last := p;
      }
      if path[0] == SLASH && NextSlash(path, 1) != -1 {
        RootHasNoSuchFile(added, path);
      } else {
        SameDir(path, last + 1, |path|);
        assert path[..|path|] == path;
        FirstInItsDirectory(added, path);
      }
      found := FindFile(nodes[node].files, path);
    }

    /** The search of one node's file list. */
    static method FindFile(files: seq<Inode>, path: string) returns (found: Option<Inode>)
      ensures found == FirstNamed(files, path)
    {
      var i := 0;
      while i < |files|
        invariant 0 <= i <= |files|
        invariant FirstNamed(files, path) == FirstNamed(files[i..], path)
      {
        if files[i].name == path {
          return Some(files[i]);
        }
        assert files[i..][1..] == files[i + 1..];
        i := i + 1;
      }
      found := None;
    }
  }
}
