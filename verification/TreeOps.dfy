/** Directory lookup and the system calls that change names: dirlookup, dirlink and ialloc of fs.c, and link, unlink and create
    of sysfile.c. Path names are already resolved: the directory that nameiparent() finds is a parameter. */
module TreeOps {
  import opened Base
  import opened Tree

  datatype Outcome = Done | Failed | Panicked

  const RootNode := Node(T_DIR, 1, [Dirent(ROOTINO, "."), Dirent(ROOTINO, "..")])

  lemma {:induction false} FreshInv(fs: seq<Node>, depth: seq<nat>)
    requires 2 <= |fs| == |depth| && fs[ROOTINO] == RootNode && depth[ROOTINO] == 0
    requires forall i :: 0 <= i < |fs| && i != ROOTINO ==> fs[i] == Node(0, 0, [])
    ensures Inv(fs, depth)
  {
    assert Refs(fs, ROOTINO) == {Ref(ROOTINO, 1)};
    assert forall i: nat :: i < |fs| ==> CountOk(fs, i);
    assert forall d: nat, k: nat :: !Named(fs, d, k);
    assert DirOk(fs, depth, ROOTINO);
  }

  /** Inode `i` is the first free one; inode 0 is not used. */
  ghost predicate FirstFree(fs: seq<Node>, i: nat) {
    1 <= i < |fs| && fs[i].typ == 0 && forall j :: 1 <= j < i ==> fs[j].typ != 0
  }

  ghost predicate NoneFree(fs: seq<Node>) {
    forall j :: 1 <= j < |fs| ==> fs[j].typ != 0
  }

  /** A directory that can take no more names: writei() would have to go beyond the largest file. */
  ghost predicate Full(entries: seq<Dirent>) {
    |entries| >= MAXENTRIES && forall j :: 0 <= j < |entries| ==> entries[j].inum != 0
  }

  /** Entry `k` is the first with this name. */
  ghost predicate FirstEntry(entries: seq<Dirent>, name: Name, k: nat) {
    k < |entries| && entries[k].inum != 0 && entries[k].name == name && Absent(entries[..k], name)
  }

  class Files {
    var inodes: seq<Node>
    ghost var depth: seq<nat>

    ghost predicate Valid()
      reads this
    {
      Inv(inodes, depth)
    }

    /** The file system that mkfs makes before it adds files: a root directory that is its own parent. */
    constructor (n: nat)
      requires n >= 2
      ensures Valid() && |inodes| == n && inodes[ROOTINO] == RootNode
    {
      inodes := seq(n, i => if i == ROOTINO then RootNode else Node(0, 0, []));
      depth := seq(n, _ => 0);
      new;
      FreshInv(inodes, depth);
    }

    /** dirlookup(): the first entry with this name. */
    method Dirlookup(d: nat, name: Name) returns (off: Option<nat>)
      requires d < |inodes| && inodes[d].typ == T_DIR
      ensures off.None? <==> Absent(inodes[d].entries, name)
      ensures off.Some? ==> FirstEntry(inodes[d].entries, name, off.value)
    {
      var entries := inodes[d].entries;
      var k := 0;
      while k < |entries|
        invariant 0 <= k <= |entries| && Absent(entries[..k], name)
      {
        if entries[k].inum != 0 && entries[k].name == name {
          return Some(k);
        }
        assert entries[..k + 1] == entries[..k] + [entries[k]];
        k := k + 1;
      }
      assert entries[..k] == entries;
      return None;
    }

    /** dirlink(): the name goes into the first empty entry, or behind the last. */
    method Dirlink(d: nat, name: Name, inum: nat) returns (r: Outcome, ghost k: nat)
      requires d < |inodes| && inodes[d].typ == T_DIR
      modifies this`inodes
      ensures r != Done ==> inodes == old(inodes)
      ensures r == Failed <==> !Absent(old(inodes)[d].entries, name)
      ensures r == Panicked <==> Absent(old(inodes)[d].entries, name) && Full(old(inodes)[d].entries)
      ensures r == Done ==>
        && k <= |old(inodes)[d].entries| && (k < |old(inodes)[d].entries| ==> old(inodes)[d].entries[k].inum == 0)
        && (forall j :: 0 <= j < k ==> old(inodes)[d].entries[j].inum != 0)
        && inodes == old(inodes)[d := old(inodes)[d].(entries := PutEntry(old(inodes)[d].entries, k, Dirent(inum, name)))]
    {
      var off := Dirlookup(d, name);
      k := 0;
      if off.Some? {
        return Failed, k;
      }
      var entries := inodes[d].entries;
      var j := 0;
      while j < |entries| && entries[j].inum != 0
        invariant 0 <= j <= |entries| && forall l :: 0 <= l < j ==> entries[l].inum != 0
      {
        j := j + 1;
      }
      k := j;
      if j == |entries| >= MAXENTRIES {
        return Panicked, k;
      }
      inodes := inodes[d := inodes[d].(entries := PutEntry(entries, j, Dirent(inum, name)))];
      r := Done;
    }

    /** isdirempty(): no entry behind the first two. */
    method Isdirempty(d: nat) returns (b: bool)
      requires d < |inodes|
      ensures b <==> forall j :: 2 <= j < |inodes[d].entries| ==> inodes[d].entries[j].inum == 0
    {
      var entries := inodes[d].entries;
      var j := 2;
      while j < |entries|
        invariant 2 <= j && forall l :: 2 <= l < j && l < |entries| ==> entries[l].inum == 0
      {
        if entries[j].inum != 0 {
          return false;
        }
        j := j + 1;
      }
      return true;
    }

    /** ialloc(): the first free inode, now of this type. */
    method Ialloc(typ: nat) returns (i: Option<nat>)
      modifies this`inodes
      ensures i.None? <==> NoneFree(old(inodes))
      ensures i.None? ==> inodes == old(inodes)
      ensures i.Some? ==> FirstFree(old(inodes), i.value) && inodes == old(inodes)[i.value := Node(typ, 0, [])]
    {
      var j := 1;
      while j < |inodes|
        invariant inodes == old(inodes) && 1 <= j && forall l :: 1 <= l < j && l < |inodes| ==> inodes[l].typ != 0
      {
        if inodes[j].typ == 0 {
          inodes := inodes[j := Node(typ, 0, [])];
          return Some(j);
        }
        j := j + 1;
      }
      return None;
    }

    /** iput() of one of `refs` references to an inode: the last one truncates and frees it, if it has no names. */
    method Iput(i: nat, refs: nat) returns (left: nat)
      requires Valid() && i < |inodes| && inodes[i].typ != 0 && refs >= 1
      modifies this`inodes
      ensures Valid() && left == refs - 1
      ensures inodes == if old(inodes)[i].nlink == 0 && left == 0 then old(inodes)[i := Node(0, 0, [])] else old(inodes)
    {
      if inodes[i].nlink == 0 && refs == 1 {
        FreeKeeps(inodes, depth, i);
        inodes := inodes[i := Node(0, 0, [])];
      }
      left := refs - 1;
    }

    /** sys_link() of the inode that namei() found under the name in the directory that nameiparent() found. */
    method Link(ip: Option<nat>, dp: Option<nat>, name: Name) returns (r: Outcome)
      requires Valid() && (ip.Some? ==> ip.value < |inodes| && inodes[ip.value].typ != 0)
      requires dp.Some? ==> dp.value < |inodes| && Live(inodes[dp.value])
      modifies this`inodes
      ensures r != Panicked ==> Valid()
      ensures r == Failed ==> inodes == old(inodes)
      ensures r == Failed <==> ip.None? || old(inodes)[ip.value].typ == T_DIR || dp.None? || !Absent(old(inodes)[dp.value].entries, name)
      ensures r == Panicked <==>
        && ip.Some? && old(inodes)[ip.value].typ != T_DIR && dp.Some? && Absent(old(inodes)[dp.value].entries, name)
        && Full(old(inodes)[dp.value].entries)
      ensures r == Done ==> exists k :: NameAdded(old(inodes), inodes, dp.value, k, Dirent(ip.value, name))
    {
      if ip.None? || inodes[ip.value].typ == T_DIR {
        return Failed;
      }
      var i := ip.value;
      inodes := inodes[i := inodes[i].(nlink := inodes[i].nlink + 1)];
      r := Failed;
      if dp.Some? {
        ghost var k;
        LiveDots(old(inodes), depth, dp.value);
        r, k := Dirlink(dp.value, name, i);
        if r == Done {
          assert NameAdded(old(inodes), inodes, dp.value, k, Dirent(i, name));
          AddKeeps(old(inodes), inodes, depth, dp.value, k, Dirent(i, name));
        }
      }
      if r == Failed {
        inodes := inodes[i := inodes[i].(nlink := inodes[i].nlink - 1)];
        assert inodes == old(inodes);
      }
    }

    /** sys_unlink() of a name in the directory that nameiparent() found. It does not panic. */
    method Unlink(dp: Option<nat>, name: Name) returns (r: Outcome)
      requires Valid() && (dp.Some? ==> dp.value < |inodes| && Live(inodes[dp.value]))
      modifies this`inodes
      ensures r != Panicked && Valid()
      ensures r == Failed ==> inodes == old(inodes)
      ensures r == Done ==> dp.Some? && exists k :: NameGone(old(inodes), inodes, dp.value, k, name)
      ensures r == Failed <==>
        || dp.None? || name == "." || name == ".." || Absent(old(inodes)[dp.value].entries, name)
        || exists k :: FullDir(old(inodes), dp.value, k, name)
    {
      if dp.None? {
        return Failed;
      }
      var d := dp.value;
      if name == "." || name == ".." {
        return Failed;
      }
      var off := Dirlookup(d, name);
      if off.None? {
        return Failed;
      }
      var k := off.value;
      UnlinkFacts(inodes, depth, d, k, name);
      var i := inodes[d].entries[k].inum;
      if inodes[i].nlink < 1 {
        return Panicked;
      }
      if inodes[i].typ == T_DIR {
        var empty := Isdirempty(i);
        if !empty {
          assert FullDir(inodes, d, k, name);
          return Failed;
        }
        EmptyOneName(inodes, depth, d, k);
      }
      inodes := inodes[d := inodes[d].(entries := PutEntry(inodes[d].entries, k, Empty))];
      if inodes[i].typ == T_DIR {
        inodes := inodes[d := inodes[d].(nlink := inodes[d].nlink - 1)];
      }
      inodes := inodes[i := inodes[i].(nlink := inodes[i].nlink - 1)];
      assert NameGone(old(inodes), inodes, dp.value, k, name);
      UnlinkKeeps(old(inodes), inodes, depth, d, k, name);
      r := Done;
    }

    /** create() of a name in the directory that nameiparent() found: the inode of that name, new or already there, or nothing.
        It panics only if there is no free inode or no room in the directory. */
    method Create(dp: Option<nat>, name: Name, typ: nat) returns (r: Outcome, i: nat)
      requires Valid() && typ != 0 && (dp.Some? ==> dp.value < |inodes| && Live(inodes[dp.value]))
      modifies this
      ensures r != Panicked ==> Valid()
      ensures r == Failed ==> inodes == old(inodes)
      ensures r == Failed <==> dp.None? || (exists k: nat :: Clashes(old(inodes), dp.value, k, name, typ))
      ensures r == Panicked <==>
        dp.Some? && Absent(old(inodes)[dp.value].entries, name) && (NoneFree(old(inodes)) || Full(old(inodes)[dp.value].entries))
      ensures r == Done ==>
        && dp.Some? && i < |inodes|
        && if Absent(old(inodes)[dp.value].entries, name) then
             FirstFree(old(inodes), i) && exists k :: Made(old(inodes), inodes, dp.value, k, name, i, typ)
           else
             && inodes == old(inodes) && typ == T_FILE && inodes[i].typ == T_FILE
             && exists k: nat :: FirstEntry(inodes[dp.value].entries, name, k) && inodes[dp.value].entries[k].inum == i
    {
      i := 0;
      if dp.None? {
        return Failed, i;
      }
      var d := dp.value;
      LiveDots(inodes, depth, d);
      var off := Dirlookup(d, name);
      if off.Some? {
        EntryFacts(inodes, depth, d, off.value);
        i := inodes[d].entries[off.value].inum;
        assert FirstEntry(inodes[d].entries, name, off.value);
        assert Clashes(inodes, d, off.value, name, typ) <==> !(typ == T_FILE && inodes[i].typ == T_FILE);
        return if typ == T_FILE && inodes[i].typ == T_FILE then Done else Failed, i;
      }
      r, i := MakeNode(d, name, typ);
    }

    /** create() gives a new directory its "." and "..", which does not fail. */
    method MakeDots(i: nat, d: nat)
      requires i < |inodes| && inodes[i].typ == T_DIR && inodes[i].entries == [] && i != 0 && d != 0
      modifies this`inodes
      ensures inodes == old(inodes)[i := old(inodes)[i].(entries := [Dirent(i, "."), Dirent(d, "..")])]
    {
      var r;
      ghost var k;
      r, k := Dirlink(i, ".", i);
      assert inodes[i].entries == [Dirent(i, ".")];
      r, k := Dirlink(i, "..", d);
      assert inodes[i].entries == [Dirent(i, "."), Dirent(d, "..")];
    }

    /** The part of create() for a name that is not there. */
    method MakeNode(d: nat, name: Name, typ: nat) returns (r: Outcome, i: nat)
      requires Valid() && typ != 0 && d < |inodes| && Live(inodes[d]) && Dots(inodes, d) && Absent(inodes[d].entries, name)
      modifies this
      ensures r != Failed
      ensures r == Done ==> Valid() && i < |inodes| && FirstFree(old(inodes), i) && exists k :: Made(old(inodes), inodes, d, k, name, i, typ)
      ensures r == Panicked <==> NoneFree(old(inodes)) || Full(old(inodes)[d].entries)
    {
      LiveDots(inodes, depth, d);
      var new' := Ialloc(typ);
      if new'.None? {
        return Panicked, 0;
      }
      i := new'.value;
      inodes := inodes[i := inodes[i].(nlink := 1)];
      ghost var k;
      if typ == T_DIR {
        inodes := inodes[d := inodes[d].(nlink := inodes[d].nlink + 1)];
        MakeDots(i, d);
      }
      r, k := Dirlink(d, name, i);
      if r == Done {
        assert Made(old(inodes), inodes, d, k, name, i, typ);
        MadeKeeps(old(inodes), inodes, depth, d, k, name, i, typ);
        depth := if typ == T_DIR then depth[i := depth[d] + 1] else depth;
      }
    }
  }

  /** The name is there, for something that is not a file or when no file is wanted. */
  ghost predicate Clashes(fs: seq<Node>, d: nat, k: nat, name: Name, typ: nat) {
    && d < |fs| && FirstEntry(fs[d].entries, name, k)
    && !(typ == T_FILE && fs[d].entries[k].inum < |fs| && fs[fs[d].entries[k].inum].typ == T_FILE)
  }

  /** Every entry of a live directory is in range. */
  lemma {:induction false} EntryFacts(fs: seq<Node>, depth: seq<nat>, d: nat, k: nat)
    requires Inv(fs, depth) && d < |fs| && Live(fs[d]) && k < |fs[d].entries| && fs[d].entries[k].inum != 0
    ensures fs[d].entries[k].inum < |fs|
  {
    LiveDots(fs, depth, d);
    assert k >= 2 ==> NameOk(fs, d, k);
  }

  /** What create() makes: a directory with "." and "..", or an empty file. */
  function NewNode(typ: nat, i: nat, d: nat): Node {
    Node(typ, 1, if typ == T_DIR then [Dirent(i, "."), Dirent(d, "..")] else [])
  }

  /** `fs'` is `fs` with a new inode `i`, named in entry `k` of directory `d`, which has a link more if that is a directory. */
  predicate Made(fs: seq<Node>, fs': seq<Node>, d: nat, k: nat, name: Name, i: nat, typ: nat) {
    && d < |fs| && Live(fs[d]) && Room(fs[d].entries, k) && Absent(fs[d].entries, name) && 0 < i < |fs| && fs[i].typ == 0 && typ != 0
    && fs' == fs[i := NewNode(typ, i, d)]
                [d := fs[d].(entries := PutEntry(fs[d].entries, k, Dirent(i, name)), nlink := fs[d].nlink + if typ == T_DIR then 1 else 0)]
  }

  /** create() keeps the invariant. */
  lemma {:induction false} MadeKeeps(fs: seq<Node>, fs': seq<Node>, depth: seq<nat>, d: nat, k: nat, name: Name, i: nat, typ: nat)
    requires Inv(fs, depth) && Made(fs, fs', d, k, name, i, typ)
    ensures Inv(fs', if typ == T_DIR then depth[i := depth[d] + 1] else depth)
  {
    LiveDots(fs, depth, d);
    if typ == T_DIR {
      assert Hung(fs, fs', d, k, i);
      HangKeeps(fs, fs', depth, d, k, i);
    } else {
      assert NameAdded(fs, fs', d, k, Dirent(i, name));
      AddKeeps(fs, fs', depth, d, k, Dirent(i, name));
    }
  }

  /** The name is that of a directory with something in it. */
  predicate FullDir(fs: seq<Node>, d: nat, k: nat, name: Name) {
    && Named(fs, d, k) && fs[d].entries[k].name == name
    && var i := fs[d].entries[k].inum;
       i < |fs| && fs[i].typ == T_DIR && exists j :: 2 <= j < |fs[i].entries| && fs[i].entries[j].inum != 0
  }

  /** Entry `k`, which had this name, is empty, the inode it named has a link less, and so has the directory if that was one too. */
  predicate NameGone(fs: seq<Node>, fs': seq<Node>, d: nat, k: nat, name: Name) {
    && Named(fs, d, k) && fs[d].entries[k].name == name
    && var i := fs[d].entries[k].inum;
       && i < |fs| && i != d && fs[i].typ != 0 && fs[i].nlink > 0 && d < |fs| && k < |fs[d].entries|
       && fs' == fs[d := fs[d].(entries := fs[d].entries[k := Empty], nlink := fs[d].nlink - if fs[i].typ == T_DIR then 1 else 0)]
                   [i := fs[i].(nlink := fs[i].nlink - 1)]
  }

  /** What dirlookup() found is an allocated inode with a link, and not "." or "..". */
  lemma {:induction false} UnlinkFacts(fs: seq<Node>, depth: seq<nat>, d: nat, k: nat, name: Name)
    requires Inv(fs, depth) && d < |fs| && Live(fs[d]) && name != "." && name != ".."
    requires k < |fs[d].entries| && fs[d].entries[k].inum != 0 && fs[d].entries[k].name == name
    ensures NameOk(fs, d, k) && fs[d].entries[k].inum < |fs| && fs[fs[d].entries[k].inum].nlink >= 1 && fs[d].entries[k].inum != d
    ensures forall l: nat :: Named(fs, d, l) && fs[d].entries[l].name == name ==> l == k
  {
    var i := fs[d].entries[k].inum;
    LiveDots(fs, depth, d);
    assert Named(fs, d, k) && NameOk(fs, d, k) && CountOk(fs, i);
    assert IsRef(fs, i, Ref(d, k));
    assert Refs(fs, i) != {};
    if fs[i].typ == T_DIR {
      LiveDots(fs, depth, i);
      assert DirOk(fs, depth, i);
    }
    forall l: nat | Named(fs, d, l) && l != k ensures fs[d].entries[l].name != name {
      assert PairOk(fs, d, k, l);
    }
  }

  lemma {:induction false} UnlinkKeeps(fs: seq<Node>, fs': seq<Node>, depth: seq<nat>, d: nat, k: nat, name: Name)
    requires Inv(fs, depth) && NameGone(fs, fs', d, k, name)
    requires fs[fs[d].entries[k].inum].typ == T_DIR ==> EmptyDir(fs[fs[d].entries[k].inum], fs[d].entries[k].inum, d)
    ensures Inv(fs', depth)
  {
    var i := fs[d].entries[k].inum;
    assert NameOk(fs, d, k);
    LiveDots(fs, depth, d);
    if fs[i].typ == T_DIR {
      LiveDots(fs, depth, i);
      CountOfParent(fs, depth, i);
      assert Hung(fs', fs, d, k, i);
      DropKeeps(fs', fs, depth, d, k, i);
    } else {
      RemoveKeeps(fs, fs', depth, d, k);
    }
  }

  /** The parent of a directory has a link besides the ".." of that directory. */
  lemma {:induction false} CountOfParent(fs: seq<Node>, depth: seq<nat>, c: nat)
    requires Inv(fs, depth) && c < |fs| && Live(fs[c]) && c != ROOTINO
    ensures Dots(fs, c) && fs[Parent(fs, c)].nlink >= 2
  {
    LiveDots(fs, depth, c);
    var d := Parent(fs, c);
    assert DirOk(fs, depth, c) && DirOk(fs, depth, d) && CountOk(fs, d);
    assert IsRef(fs, d, Ref(c, 1));
    var y: Ref;
    if d == ROOTINO {
      y := Ref(d, 1);
    } else {
      var k: nat :| Named(fs, Parent(fs, d), k) && fs[Parent(fs, d)].entries[k].inum == d;
      assert NameOk(fs, Parent(fs, d), k);
      y := Ref(Parent(fs, d), k);
    }
    assert IsRef(fs, d, y) && y != Ref(c, 1);
    assert {y, Ref(c, 1)} <= Refs(fs, d);
    SubsetSize({y, Ref(c, 1)}, Refs(fs, d));
  }

  lemma {:induction false} LiveDots(fs: seq<Node>, depth: seq<nat>, d: nat)
    requires Inv(fs, depth) && d < |fs| && Live(fs[d])
    ensures Dots(fs, d) && d != 0 && fs[d].entries[1].inum != 0
  {
    assert DirOk(fs, depth, d);
    assert DirOk(fs, depth, Parent(fs, d));
  }
}
