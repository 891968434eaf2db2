/** `vfs_find_inode` of kernel/fs/vfs.c over mounted TAR archives: the choice of a mount, then of a member. */
module VfsLookup {
  import opened Machine
  import opened Strings
  import opened DirTree
  import opened Mounts
  import opened Tar
  import opened TarArchive

  /** Member names start neither empty nor with a slash, as in every archive that was walked. */
  ghost predicate MemberNames(added: seq<Inode>) {
    forall f <- added :: f.name != "" && f.name[0] != SLASH
  }

  lemma {:induction false} WalkedNames(disk: Disk, members: seq<Member>, ending: Ending, k: nat)
    requires Archive(disk, 0, members, ending) && k <= |members|
    ensures MemberNames(Inodes(members, 0, k))
  {
    hide Archive;
    if k > 0 {
      WalkedNames(disk, members, ending, k - 1);
      MemberBytes(disk, members, ending, k - 1);
    }
  }

  /** A path with a leading slash names no member. */
  lemma NoLeadingSlash(added: seq<Inode>, path: string)
    requires MemberNames(added) && path != "" && path[0] == SLASH
    ensures FirstNamed(added, path) == None
  {
    FirstNamedNone(added, path);
  }

  /** `vfs_find_inode`, for a path that is neither a mount nor a directory. */
  method FindInode(mounts: seq<string>, trees: seq<Directory>, path: string) returns (found: Option<Inode>)
    requires |trees| == |mounts| && forall t <- trees :: t.Valid() && MemberNames(t.added)
    requires CString(path) && (forall m <- mounts :: CString(m))
    requires path != "" && path[|path| - 1] != SLASH && path !in mounts
    ensures (forall m <- mounts :: !Candidate(m, path)) ==> found == None
    ensures forall i :: 0 <= i < |mounts| && Best(mounts, path, i) ==>
              |mounts[i]| <= |path| && found == FirstNamed(trees[i].added, path[|mounts[i]|..])
  {
    hide Slashes, FirstNamed, Tree, Filed;
    var best := VnodeFor(mounts, path);
    if best == None {
      return None;
    }
    var b := best.value;
    var m, local := mounts[b], path[|mounts[b]|..];
    assert m in mounts && trees[b] in trees && m == path[..|m|];
    assert |m| < |path| by {
      assert |m| == |path| ==> m == path;
    }
    found := trees[b].GetFile(local);
    if local[0] == SLASH {
      NoLeadingSlash(trees[b].added, local);
    }
    assert forall i :: 0 <= i < |mounts| && Best(mounts, path, i) ==> i == b;
  }

  /** The path of a member below a mount. */
  function Below(mount: string, name: string): string
    requires mount != ""
  {
    if mount[|mount| - 1] == SLASH then mount + name else mount + "/" + name
  }

  /**
   * A member of the chosen mount is found under its path if and only if the mount ends in a slash: without
   * one the local path starts with the slash that no member name has.
   */
  lemma MemberIsFoundIff(mounts: seq<string>, i: nat, added: seq<Inode>, name: string)
    requires i < |mounts| && mounts[i] != "" && MemberNames(added) && name != ""
    requires Best(mounts, Below(mounts[i], name), i) && FirstNamed(added, name).Some?
    ensures var path := Below(mounts[i], name);
            && |mounts[i]| <= |path|
            && (FirstNamed(added, path[|mounts[i]|..]) == FirstNamed(added, name)
                <==> mounts[i][|mounts[i]| - 1] == SLASH)
            && (mounts[i][|mounts[i]| - 1] != SLASH ==> FirstNamed(added, path[|mounts[i]|..]) == None)
  {
    hide FirstNamed, Best;
    var m, path := mounts[i], Below(mounts[i], name);
    if m[|m| - 1] == SLASH {
      assert path[|m|..] == name;
    } else {
      assert path[|m|..] == "/" + name;
      NoLeadingSlash(added, path[|m|..]);
    }
  }

  /** An archive mounted at `/a` with a member `x`: looking up `/a/x` finds nothing. */
  lemma SlashlessMountHides(x: Inode)
    requires x.name == "x"
    ensures MemberNames([x]) && FirstNamed([x], "x") == Some(x)
    ensures Below("/a", "x") == "/a/x" && Best(["/a"], "/a/x", 0)
    ensures FirstNamed([x], "/a/x"[2..]) == None
  {
    assert "/a"[1..] == "a" && "a"[1..] == "";
    assert Slashes("/a") == 1 + Slashes("a") && Slashes("a") == Slashes("");
    MemberIsFoundIff(["/a"], 0, [x], "x");
  }
}
