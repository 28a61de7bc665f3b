/** Directories, link counts and the shape of the tree, as values: what the operations of sysfile.c keep. A directory is the
    sequence of its entries, whose bytes are the contents of the directory file. */
module Tree {

  const ROOTINO := 1
  const T_DIR := 1
  const T_FILE := 2
  const DIRSIZ := 14
  const MAXENTRIES := 140 * 512 / 16   // entries that fit in the largest file

  type Name = n: string | |n| <= DIRSIZ witness ""

  datatype Dirent = Dirent(inum: nat, name: Name)

  /** An inode; type 0 is free. */
  datatype Node = Node(typ: nat, nlink: int, entries: seq<Dirent>)

  const Empty := Dirent(0, "")

  predicate Live(n: Node) { n.typ == T_DIR && n.nlink > 0 }

  // ---- References

  /** Entry `k` of directory `d`. */
  datatype Ref = Ref(d: nat, k: nat)

  /** The entry is in a live directory and is a name for inode `i`, other than its own ".". */
  predicate IsRef(fs: seq<Node>, i: nat, x: Ref) {
    && x.d < |fs| && Live(fs[x.d]) && x.k < |fs[x.d].entries| && fs[x.d].entries[x.k].inum == i && fs[x.d].entries[x.k].name != "."
  }

  /** All names for inode `i`. */
  ghost function Refs(fs: seq<Node>, i: nat): (r: set<Ref>)
    ensures forall x :: x in r <==> IsRef(fs, i, x)
  {
    RefsBelow(fs, i, |fs|)
  }

  /** Those in directories below `n`. */
  ghost function RefsBelow(fs: seq<Node>, i: nat, n: nat): (r: set<Ref>)
    requires n <= |fs|
    ensures forall x :: x in r <==> x.d < n && IsRef(fs, i, x)
  {
    if n == 0 then {} else RefsBelow(fs, i, n - 1) + RefsIn(fs, i, n - 1, |fs[n - 1].entries|)
  }

  ghost function RefsIn(fs: seq<Node>, i: nat, d: nat, n: nat): (r: set<Ref>)
    requires d < |fs| && n <= |fs[d].entries|
    ensures forall x :: x in r <==> x.d == d && x.k < n && IsRef(fs, i, x)
  {
    if n == 0 then {} else RefsIn(fs, i, d, n - 1) + if IsRef(fs, i, Ref(d, n - 1)) then {Ref(d, n - 1)} else {}
  }

  lemma {:induction false} SameRefs(fs: seq<Node>, fs': seq<Node>, i: nat)
    requires forall x :: IsRef(fs', i, x) <==> IsRef(fs, i, x)
    ensures |Refs(fs', i)| == |Refs(fs, i)|
  {
    assert Refs(fs', i) == Refs(fs, i);
  }

  lemma {:induction false} OneMoreRef(fs: seq<Node>, fs': seq<Node>, i: nat, y: Ref)
    requires !IsRef(fs, i, y) && forall x :: IsRef(fs', i, x) <==> IsRef(fs, i, x) || x == y
    ensures |Refs(fs', i)| == |Refs(fs, i)| + 1
  {
    assert Refs(fs', i) == Refs(fs, i) + {y};
  }

  // ---- The invariant

  /** An allocated inode counts its names. */
  ghost predicate CountOk(fs: seq<Node>, i: nat) {
    i < |fs| && (fs[i].typ != 0 ==> fs[i].nlink == |Refs(fs, i)|)
  }

  ghost predicate Counted(fs: seq<Node>) {
    forall i: nat {:trigger CountOk(fs, i)} :: i < |fs| ==> CountOk(fs, i)
  }

  /** Entries 0 and 1 of a live directory are "." and "..". */
  predicate Dots(fs: seq<Node>, d: nat) {
    && d < |fs| && |fs[d].entries| >= 2 && fs[d].entries[0] == Dirent(d, ".") && fs[d].entries[1].name == ".."
    && fs[d].entries[1].inum < |fs| && Live(fs[fs[d].entries[1].inum])
  }

  function Parent(fs: seq<Node>, d: nat): nat
    requires Dots(fs, d)
  {
    fs[d].entries[1].inum
  }

  /** Entry `k` is neither empty nor one of the first two. */
  predicate Named(fs: seq<Node>, d: nat, k: nat) {
    d < |fs| && Live(fs[d]) && 2 <= k < |fs[d].entries| && fs[d].entries[k].inum != 0
  }

  /** It names an allocated inode; if that is a directory, then one whose parent this is. */
  predicate NameOk(fs: seq<Node>, d: nat, k: nat) {
    && Named(fs, d, k) && fs[d].entries[k].name != "." && fs[d].entries[k].name != ".."
    && var t := fs[d].entries[k].inum;
       t < |fs| && fs[t].typ != 0 && (fs[t].typ == T_DIR ==> t != ROOTINO && Live(fs[t]) && Dots(fs, t) && Parent(fs, t) == d)
  }

  /** Two entries of a directory have different names, and do not name the same directory. */
  predicate PairOk(fs: seq<Node>, d: nat, k: nat, l: nat) {
    && Named(fs, d, k) && Named(fs, d, l) && fs[d].entries[k].name != fs[d].entries[l].name
    && var t := fs[d].entries[k].inum;
       t < |fs| && (t == fs[d].entries[l].inum ==> fs[t].typ != T_DIR)
  }

  ghost predicate Names(fs: seq<Node>) {
    && (forall d: nat, k: nat {:trigger NameOk(fs, d, k)} :: Named(fs, d, k) ==> NameOk(fs, d, k))
    && (forall d: nat, k: nat, l: nat {:trigger PairOk(fs, d, k, l)} :: Named(fs, d, k) && Named(fs, d, l) && k != l ==> PairOk(fs, d, k, l))
  }

  /** A live directory is one deeper than its parent, which names it; the root is its own parent. */
  ghost predicate DirOk(fs: seq<Node>, depth: seq<nat>, d: nat) {
    && |depth| == |fs| && d != 0 && Dots(fs, d)
    && if d == ROOTINO then Parent(fs, d) == d && depth[d] == 0
       else
         && depth[d] == depth[Parent(fs, d)] + 1
         && exists k: nat :: Named(fs, Parent(fs, d), k) && fs[Parent(fs, d)].entries[k].inum == d
  }

  /** Live directories are a tree with the root at depth 0. */
  ghost predicate Rooted(fs: seq<Node>, depth: seq<nat>) {
    && |depth| == |fs| && ROOTINO < |fs| && Live(fs[ROOTINO]) && fs[0].typ == 0
    && forall d: nat {:trigger DirOk(fs, depth, d)} :: d < |fs| && Live(fs[d]) ==> DirOk(fs, depth, d)
  }

  ghost predicate Inv(fs: seq<Node>, depth: seq<nat>) {
    Counted(fs) && Names(fs) && Rooted(fs, depth)
  }

  // ---- Changing one entry

  /** Entry `k` is set to `e`; it may be a new last one. */
  function PutEntry(entries: seq<Dirent>, k: nat, e: Dirent): seq<Dirent>
    requires k <= |entries|
  {
    if k == |entries| then entries + [e] else entries[k := e]
  }

  /** The entry can take a new name. */
  predicate Room(entries: seq<Dirent>, k: nat) {
    2 <= k <= |entries| && (k < |entries| ==> entries[k].inum == 0)
  }

  predicate Absent(entries: seq<Dirent>, name: Name) {
    forall j :: 0 <= j < |entries| && entries[j].inum != 0 ==> entries[j].name != name
  }

  /** Only entry `k` of directory `d` has changed, to `e`, apart from types of files and link counts that leave live what was. */
  predicate Edited(fs: seq<Node>, fs': seq<Node>, d: nat, k: nat, e: Dirent) {
    && |fs'| == |fs| && d < |fs| && Live(fs[d]) && 2 <= k <= |fs[d].entries| && fs'[d].entries == PutEntry(fs[d].entries, k, e)
    && (forall i :: 0 <= i < |fs| ==> (Live(fs'[i]) <==> Live(fs[i])))
    && (forall i :: 0 <= i < |fs| && i != d && Live(fs[i]) ==> fs'[i].entries == fs[i].entries)
  }

  lemma {:induction false} EditedRefs(fs: seq<Node>, fs': seq<Node>, d: nat, k: nat, e: Dirent, i: nat)
    requires Edited(fs, fs', d, k, e)
    ensures forall x :: IsRef(fs', i, x) <==> if x == Ref(d, k) then e.inum == i && e.name != "." else IsRef(fs, i, x)
  {
  }

  /** No name refers to a free inode. */
  lemma {:induction false} FreeUnnamed(fs: seq<Node>, depth: seq<nat>, i: nat)
    requires Names(fs) && Rooted(fs, depth) && 0 < i < |fs| && fs[i].typ == 0
    ensures forall x :: !IsRef(fs, i, x)
  {
    forall x: Ref | x.d < |fs| && Live(fs[x.d]) && x.k < |fs[x.d].entries| && fs[x.d].entries[x.k].inum != 0 && fs[x.d].entries[x.k].name != "."
      ensures fs[x.d].entries[x.k].inum != i
    {
      assert DirOk(fs, depth, x.d);
      assert x.k >= 2 ==> NameOk(fs, x.d, x.k);
    }
  }

  /** Live directories keep their "." and "..". */
  lemma {:induction false} EditedDots(fs: seq<Node>, fs': seq<Node>, d: nat, k: nat, e: Dirent, x: nat)
    requires Edited(fs, fs', d, k, e) && x < |fs| && Live(fs[x]) && Dots(fs, x)
    ensures Live(fs'[x]) && Dots(fs', x) && Parent(fs', x) == Parent(fs, x)
  {
  }

  lemma {:induction false} EditedNamed(fs: seq<Node>, fs': seq<Node>, d: nat, k: nat, e: Dirent, x: nat, j: nat)
    requires Edited(fs, fs', d, k, e)
    ensures Named(fs', x, j) <==> if x == d && j == k then e.inum != 0 else Named(fs, x, j)
    ensures Named(fs', x, j) ==> fs'[x].entries[j] == if x == d && j == k then e else fs[x].entries[j]
  {
  }

  // ---- A name for a file, in link() and create()

  /** `fs'` is `fs` with the name `e` for an inode that is no directory; that inode may have been free. */
  predicate NameAdded(fs: seq<Node>, fs': seq<Node>, d: nat, k: nat, e: Dirent) {
    && Edited(fs, fs', d, k, e) && Room(fs[d].entries, k) && Absent(fs[d].entries, e.name)
    && 0 < e.inum < |fs| && fs[e.inum].typ != T_DIR && fs'[e.inum].typ != 0 && fs'[e.inum].typ != T_DIR
    && (forall i :: 0 <= i < |fs| && i != e.inum ==> fs'[i].typ == fs[i].typ && fs'[i].nlink == fs[i].nlink)
    && fs'[e.inum].nlink == (if fs[e.inum].typ == 0 then 0 else fs[e.inum].nlink) + 1
  }

  lemma {:induction false} AddCounted(fs: seq<Node>, fs': seq<Node>, depth: seq<nat>, d: nat, k: nat, e: Dirent)
    requires Inv(fs, depth) && NameAdded(fs, fs', d, k, e)
    ensures Counted(fs')
  {
    assert DirOk(fs, depth, d);
    forall i: nat | i < |fs'| ensures CountOk(fs', i) {
      assert CountOk(fs, i);
      EditedRefs(fs, fs', d, k, e, i);
      if i == e.inum {
        assert e.name != ".";
        OneMoreRef(fs, fs', i, Ref(d, k));
        if fs[i].typ == 0 {
          FreeUnnamed(fs, depth, i);
          assert Refs(fs, i) == {};
        }
      } else if i != 0 {
        SameRefs(fs, fs', i);
      }
    }
  }

  lemma {:induction false} AddNames(fs: seq<Node>, fs': seq<Node>, depth: seq<nat>, d: nat, k: nat, e: Dirent)
    requires Inv(fs, depth) && NameAdded(fs, fs', d, k, e)
    ensures Names(fs')
  {
    assert DirOk(fs, depth, d);
    forall x: nat, j: nat | Named(fs', x, j) ensures NameOk(fs', x, j) {
      EditedNamed(fs, fs', d, k, e, x, j);
      if !(x == d && j == k) {
        assert NameOk(fs, x, j);
        if fs[fs[x].entries[j].inum].typ == T_DIR {
          EditedDots(fs, fs', d, k, e, fs[x].entries[j].inum);
        }
      }
    }
    forall x: nat, j: nat, l: nat | Named(fs', x, j) && Named(fs', x, l) && j != l ensures PairOk(fs', x, j, l) {
      EditedNamed(fs, fs', d, k, e, x, j);
      EditedNamed(fs, fs', d, k, e, x, l);
      if x == d && (j == k || l == k) {
      } else {
        assert PairOk(fs, x, j, l);
      }
      assert NameOk(fs', x, j);
    }
  }

  /** The tree stays as it is when no directory loses its name. */
  lemma {:induction false} EditRooted(fs: seq<Node>, fs': seq<Node>, depth: seq<nat>, d: nat, k: nat, e: Dirent)
    requires Rooted(fs, depth) && Edited(fs, fs', d, k, e) && fs'[0].typ == 0
    requires Named(fs, d, k) ==> fs[d].entries[k].inum < |fs| && !Live(fs[fs[d].entries[k].inum])
    ensures Rooted(fs', depth)
  {
    forall x: nat | x < |fs'| && Live(fs'[x]) ensures DirOk(fs', depth, x) {
      assert DirOk(fs, depth, x);
      EditedDots(fs, fs', d, k, e, x);
      if x != ROOTINO {
        var p := Parent(fs, x);
        var j: nat :| Named(fs, p, j) && fs[p].entries[j].inum == x;
        EditedNamed(fs, fs', d, k, e, p, j);
      }
    }
  }

  /** link() and create() of a file keep the invariant. */
  lemma {:induction false} AddKeeps(fs: seq<Node>, fs': seq<Node>, depth: seq<nat>, d: nat, k: nat, e: Dirent)
    requires Inv(fs, depth) && NameAdded(fs, fs', d, k, e)
    ensures Inv(fs', depth)
  {
    AddCounted(fs, fs', depth, d, k, e);
    AddNames(fs, fs', depth, d, k, e);
    EditRooted(fs, fs', depth, d, k, e);
  }

  // ---- A file loses a name, in unlink()

  predicate NameRemoved(fs: seq<Node>, fs': seq<Node>, d: nat, k: nat) {
    && Edited(fs, fs', d, k, Empty) && Named(fs, d, k)
    && var t := fs[d].entries[k].inum;
       && t < |fs| && fs[t].typ != T_DIR && fs'[t].nlink == fs[t].nlink - 1
       && (forall i :: 0 <= i < |fs| ==> fs'[i].typ == fs[i].typ && (i != t ==> fs'[i].nlink == fs[i].nlink))
  }

  lemma {:induction false} RemoveCounted(fs: seq<Node>, fs': seq<Node>, depth: seq<nat>, d: nat, k: nat)
    requires Inv(fs, depth) && NameRemoved(fs, fs', d, k)
    ensures Counted(fs')
  {
    var t := fs[d].entries[k].inum;
    assert NameOk(fs, d, k);
    forall i: nat | i < |fs'| ensures CountOk(fs', i) {
      assert CountOk(fs, i);
      EditedRefs(fs, fs', d, k, Empty, i);
      if i == t {
        OneMoreRef(fs', fs, i, Ref(d, k));
      } else if i != 0 {
        SameRefs(fs, fs', i);
      }
    }
  }

  lemma {:induction false} RemoveNames(fs: seq<Node>, fs': seq<Node>, d: nat, k: nat)
    requires Names(fs) && NameRemoved(fs, fs', d, k)
    ensures Names(fs')
  {
    forall x: nat, j: nat | Named(fs', x, j) ensures NameOk(fs', x, j) {
      EditedNamed(fs, fs', d, k, Empty, x, j);
      assert NameOk(fs, x, j);
      if fs[fs[x].entries[j].inum].typ == T_DIR {
        EditedDots(fs, fs', d, k, Empty, fs[x].entries[j].inum);
      }
    }
    forall x: nat, j: nat, l: nat | Named(fs', x, j) && Named(fs', x, l) && j != l ensures PairOk(fs', x, j, l) {
      EditedNamed(fs, fs', d, k, Empty, x, j);
      EditedNamed(fs, fs', d, k, Empty, x, l);
      assert PairOk(fs, x, j, l);
    }
  }

  /** unlink() of a file keeps the invariant. */
  lemma {:induction false} RemoveKeeps(fs: seq<Node>, fs': seq<Node>, depth: seq<nat>, d: nat, k: nat)
    requires Inv(fs, depth) && NameRemoved(fs, fs', d, k)
    ensures Inv(fs', depth)
  {
    RemoveCounted(fs, fs', depth, d, k);
    RemoveNames(fs, fs', d, k);
    EditRooted(fs, fs', depth, d, k, Empty);
  }

  // ---- A directory, in create() and unlink()

  /** An empty directory: "." and ".." and nothing behind. */
  predicate EmptyDir(n: Node, i: nat, parent: nat) {
    && n.typ == T_DIR && n.nlink == 1 && |n.entries| >= 2 && n.entries[0] == Dirent(i, ".") && n.entries[1] == Dirent(parent, "..")
    && forall j :: 2 <= j < |n.entries| ==> n.entries[j].inum == 0
  }

  /** `big` is `fs` with the empty directory `c` as entry `k` of directory `d`. */
  ghost predicate Hung(fs: seq<Node>, big: seq<Node>, d: nat, k: nat, c: nat) {
    && |big| == |fs| && 0 < c < |fs| && c != ROOTINO && 0 < d < |fs| && c != d && 2 <= k
    && Live(fs[d]) && big[d].typ == T_DIR && big[d].nlink == fs[d].nlink + 1
    && !Live(fs[c]) && (fs[c].typ != 0 ==> fs[c].nlink == 0) && EmptyDir(big[c], c, d)
    && k < |big[d].entries| && big[d].entries[k].inum == c && (k < |fs[d].entries| ==> fs[d].entries[k].inum == 0)
    && (forall j {:trigger big[d].entries[j]} {:trigger fs[d].entries[j]} :: 0 <= j && j != k ==>
          (j < |big[d].entries| <==> j < |fs[d].entries|) && (j < |fs[d].entries| ==> big[d].entries[j] == fs[d].entries[j]))
    && (forall i :: 0 <= i < |fs| && i != d && i != c ==> big[i] == fs[i])
  }

  lemma {:induction false} HungRefs(fs: seq<Node>, big: seq<Node>, d: nat, k: nat, c: nat, i: nat)
    requires Hung(fs, big, d, k, c) && i != 0 && big[d].entries[k].name != "."
    ensures forall x :: IsRef(big, i, x) <==> IsRef(fs, i, x) || (i == c && x == Ref(d, k)) || (i == d && x == Ref(c, 1))
    ensures !IsRef(fs, i, Ref(d, k)) && !IsRef(fs, i, Ref(c, 1))
  {
  }

  /** One count follows from the other. */
  lemma {:induction false} HungCount(fs: seq<Node>, big: seq<Node>, d: nat, k: nat, c: nat, i: nat)
    requires Hung(fs, big, d, k, c) && 0 < i < |fs| && big[d].entries[k].name != "."
    ensures |Refs(big, i)| == |Refs(fs, i)| + if i == c || i == d then 1 else 0
  {
    HungRefs(fs, big, d, k, c, i);
    if i == c {
      OneMoreRef(fs, big, i, Ref(d, k));
    } else if i == d {
      OneMoreRef(fs, big, i, Ref(c, 1));
    } else {
      SameRefs(fs, big, i);
    }
  }

  lemma {:induction false} HungNamed(fs: seq<Node>, big: seq<Node>, d: nat, k: nat, c: nat, x: nat, j: nat)
    requires Hung(fs, big, d, k, c)
    ensures Named(big, x, j) <==> Named(fs, x, j) || (x == d && j == k)
    ensures Named(fs, x, j) ==> big[x].entries[j] == fs[x].entries[j]
    ensures !Named(fs, d, k)
  {
  }

  lemma {:induction false} HungDots(fs: seq<Node>, big: seq<Node>, d: nat, k: nat, c: nat, x: nat)
    requires Hung(fs, big, d, k, c) && x != c
    ensures x < |fs| && Live(fs[x]) && Dots(fs, x) ==> Live(big[x]) && Dots(big, x) && Parent(big, x) == Parent(fs, x)
    ensures x < |fs| && Live(big[x]) && Dots(big, x) && Parent(big, x) != c ==> Live(fs[x]) && Dots(fs, x) && Parent(fs, x) == Parent(big, x)
  {
  }

  // -- making one

  lemma {:induction false} HangCounted(fs: seq<Node>, big: seq<Node>, depth: seq<nat>, d: nat, k: nat, c: nat)
    requires Inv(fs, depth) && Hung(fs, big, d, k, c) && fs[c].typ == 0 && big[d].entries[k].name != "."
    ensures Counted(big)
  {
    assert DirOk(fs, depth, d);
    forall i: nat | i < |big| ensures CountOk(big, i) {
      assert CountOk(fs, i);
      if i != 0 {
        HungCount(fs, big, d, k, c, i);
        if i == c {
          FreeUnnamed(fs, depth, c);
          assert Refs(fs, c) == {};
        }
      }
    }
  }

  lemma {:induction false} HangNames(fs: seq<Node>, big: seq<Node>, depth: seq<nat>, d: nat, k: nat, c: nat)
    requires Inv(fs, depth) && Hung(fs, big, d, k, c) && fs[c].typ == 0 && Absent(fs[d].entries, big[d].entries[k].name)
    ensures Names(big)
  {
    assert DirOk(fs, depth, d);
    forall x: nat, j: nat | Named(big, x, j) ensures NameOk(big, x, j) {
      HungNamed(fs, big, d, k, c, x, j);
      if !(x == d && j == k) {
        assert NameOk(fs, x, j);
        HungDots(fs, big, d, k, c, fs[x].entries[j].inum);
      }
    }
    forall x: nat, j: nat, l: nat | Named(big, x, j) && Named(big, x, l) && j != l ensures PairOk(big, x, j, l) {
      HungNamed(fs, big, d, k, c, x, j);
      HungNamed(fs, big, d, k, c, x, l);
      assert NameOk(big, x, j) && NameOk(big, x, l);
      if x == d && (j == k || l == k) {
        assert j != k ==> NameOk(fs, x, j);
        assert l != k ==> NameOk(fs, x, l);
      } else {
        assert PairOk(fs, x, j, l) && NameOk(fs, x, j);
      }
    }
  }

  lemma {:induction false} HangRooted(fs: seq<Node>, big: seq<Node>, depth: seq<nat>, d: nat, k: nat, c: nat)
    requires Inv(fs, depth) && Hung(fs, big, d, k, c) && fs[c].typ == 0
    ensures Rooted(big, depth[c := depth[d] + 1])
  {
    var depth' := depth[c := depth[d] + 1];
    forall x: nat | x < |big| && Live(big[x]) ensures DirOk(big, depth', x) {
      HungNamed(fs, big, d, k, c, d, k);
      if x == c {
        assert DirOk(fs, depth, d);
        HungDots(fs, big, d, k, c, d);
        assert Named(big, d, k);
      } else {
        assert DirOk(fs, depth, x);
        HungDots(fs, big, d, k, c, x);
        if x != ROOTINO {
          var p := Parent(fs, x);
          var j: nat :| Named(fs, p, j) && fs[p].entries[j].inum == x;
          HungNamed(fs, big, d, k, c, p, j);
          assert p != c;
        }
      }
    }
  }

  /** create() of a directory keeps the invariant. */
  lemma {:induction false} HangKeeps(fs: seq<Node>, big: seq<Node>, depth: seq<nat>, d: nat, k: nat, c: nat)
    requires Inv(fs, depth) && Hung(fs, big, d, k, c) && fs[c].typ == 0 && Absent(fs[d].entries, big[d].entries[k].name)
    ensures Inv(big, depth[c := depth[d] + 1])
  {
    assert DirOk(fs, depth, d);
    HangCounted(fs, big, depth, d, k, c);
    HangNames(fs, big, depth, d, k, c);
    HangRooted(fs, big, depth, d, k, c);
  }

  // -- removing one

  /** An empty directory is nobody's parent. */
  lemma {:induction false} NoChild(fs: seq<Node>, depth: seq<nat>, c: nat, y: nat)
    requires Rooted(fs, depth) && c != ROOTINO && y < |fs| && Live(fs[y]) && forall j: nat :: !Named(fs, c, j)
    ensures Dots(fs, y) && Parent(fs, y) != c
  {
    assert DirOk(fs, depth, y);
    assert y != ROOTINO ==> exists j: nat :: Named(fs, Parent(fs, y), j);
  }

  /** A name of a directory `c` in `d` is its only one, if `c` is empty. */
  lemma {:induction false} OnlyName(fs: seq<Node>, depth: seq<nat>, d: nat, k: nat, c: nat, x: Ref)
    requires Inv(fs, depth) && NameOk(fs, d, k) && c == fs[d].entries[k].inum && fs[c].typ == T_DIR && (forall j: nat :: !Named(fs, c, j))
    requires IsRef(fs, c, x)
    ensures x == Ref(d, k)
  {
    NoChild(fs, depth, c, x.d);
    forall l: nat | Named(fs, d, l) && l != k ensures fs[d].entries[l].inum != c {
      assert PairOk(fs, d, k, l);
    }
    assert x.k >= 2 ==> NameOk(fs, x.d, x.k);
  }

  /** A directory with nothing in it but "." and ".." has exactly one name. */
  lemma {:induction false} EmptyOneName(fs: seq<Node>, depth: seq<nat>, d: nat, k: nat)
    requires Inv(fs, depth) && Named(fs, d, k) && fs[d].entries[k].inum < |fs| && fs[fs[d].entries[k].inum].typ == T_DIR
    requires forall j :: 2 <= j < |fs[fs[d].entries[k].inum].entries| ==> fs[fs[d].entries[k].inum].entries[j].inum == 0
    ensures var c := fs[d].entries[k].inum; c != ROOTINO && c != d && c != 0 && d != 0 && EmptyDir(fs[c], c, d)
  {
    var c := fs[d].entries[k].inum;
    assert NameOk(fs, d, k) && DirOk(fs, depth, d) && DirOk(fs, depth, c) && CountOk(fs, c);
    forall x | IsRef(fs, c, x) ensures x == Ref(d, k) {
      OnlyName(fs, depth, d, k, c, x);
    }
    assert IsRef(fs, c, Ref(d, k));
    assert Refs(fs, c) == {Ref(d, k)};
  }

  lemma {:induction false} DropCounted(fs: seq<Node>, big: seq<Node>, depth: seq<nat>, d: nat, k: nat, c: nat)
    requires Inv(big, depth) && Hung(fs, big, d, k, c)
    ensures Counted(fs)
  {
    HungNamed(fs, big, d, k, c, d, k);
    assert NameOk(big, d, k) && Rooted(big, depth);
    forall i: nat | i < |fs| ensures CountOk(fs, i) {
      assert CountOk(big, i);
      if i != 0 {
        HungCount(fs, big, d, k, c, i);
      }
    }
  }

  lemma {:induction false} DropNames(fs: seq<Node>, big: seq<Node>, depth: seq<nat>, d: nat, k: nat, c: nat)
    requires Inv(big, depth) && Hung(fs, big, d, k, c)
    ensures Names(fs)
  {
    HungNamed(fs, big, d, k, c, d, k);
    forall x: nat, j: nat | Named(fs, x, j) ensures NameOk(fs, x, j) {
      HungNamed(fs, big, d, k, c, x, j);
      assert NameOk(big, x, j) && NameOk(big, d, k);
      NotTwice(fs, big, d, k, c, x, j);
      HungDots(fs, big, d, k, c, fs[x].entries[j].inum);
    }
    forall x: nat, j: nat, l: nat | Named(fs, x, j) && Named(fs, x, l) && j != l ensures PairOk(fs, x, j, l) {
      HungNamed(fs, big, d, k, c, x, j);
      HungNamed(fs, big, d, k, c, x, l);
      NotTwice(fs, big, d, k, c, x, j);
      assert PairOk(big, x, j, l) && NameOk(fs, x, j);
    }
  }

  /** No other entry names the directory. */
  lemma {:induction false} NotTwice(fs: seq<Node>, big: seq<Node>, d: nat, k: nat, c: nat, x: nat, j: nat)
    requires Names(big) && Hung(fs, big, d, k, c) && Named(fs, x, j)
    ensures fs[x].entries[j].inum != c
  {
    HungNamed(fs, big, d, k, c, d, k);
    HungNamed(fs, big, d, k, c, x, j);
    assert NameOk(big, x, j) && NameOk(big, d, k);
    if x == d {
      assert PairOk(big, d, k, j);
    }
  }

  lemma {:induction false} DropRooted(fs: seq<Node>, big: seq<Node>, depth: seq<nat>, d: nat, k: nat, c: nat)
    requires Inv(big, depth) && Hung(fs, big, d, k, c)
    ensures Rooted(fs, depth)
  {
    forall x: nat | x < |fs| && Live(fs[x]) ensures DirOk(fs, depth, x) {
      assert DirOk(big, depth, x);
      if x != ROOTINO {
        var p := Parent(big, x);
        var j: nat :| Named(big, p, j) && big[p].entries[j].inum == x;
        HungNamed(fs, big, d, k, c, p, j);
        assert p != c;
        HungDots(fs, big, d, k, c, x);
      } else {
        HungDots(fs, big, d, k, c, x);
      }
    }
  }

  /** unlink() of an empty directory keeps the invariant. */
  lemma {:induction false} DropKeeps(fs: seq<Node>, big: seq<Node>, depth: seq<nat>, d: nat, k: nat, c: nat)
    requires Inv(big, depth) && Hung(fs, big, d, k, c)
    ensures Inv(fs, depth)
  {
    DropCounted(fs, big, depth, d, k, c);
    DropNames(fs, big, depth, d, k, c);
    DropRooted(fs, big, depth, d, k, c);
  }

  // ---- An inode without names is given back

  /** Freeing an inode without names, directory or not, keeps the invariant. */
  lemma {:induction false} FreeKeeps(fs: seq<Node>, depth: seq<nat>, i: nat)
    requires Inv(fs, depth) && i < |fs| && fs[i].typ != 0 && fs[i].nlink == 0
    ensures Inv(fs[i := Node(0, 0, [])], depth)
  {
    var fs' := fs[i := Node(0, 0, [])];
    assert CountOk(fs, i);
    forall x ensures !IsRef(fs, i, x) {
      assert x !in Refs(fs, i);
    }
    forall j: nat | j < |fs'| ensures CountOk(fs', j) {
      assert CountOk(fs, j);
      SameRefs(fs, fs', j);
    }
    forall x: nat, j: nat | Named(fs', x, j) ensures NameOk(fs', x, j) {
      assert Named(fs, x, j) && NameOk(fs, x, j) && !IsRef(fs, i, Ref(x, j));
    }
    forall x: nat, j: nat, l: nat | Named(fs', x, j) && Named(fs', x, l) && j != l ensures PairOk(fs', x, j, l) {
      assert PairOk(fs, x, j, l) && NameOk(fs', x, j);
    }
    forall x: nat | x < |fs'| && Live(fs'[x]) ensures DirOk(fs', depth, x) {
      assert DirOk(fs, depth, x);
      if x != ROOTINO {
        var k: nat :| Named(fs, Parent(fs, x), k) && fs[Parent(fs, x)].entries[k].inum == x;
        assert Named(fs', Parent(fs, x), k);
      }
    }
  }

  // ---- A parent that is no longer linked

  /** A new name in a directory that is not live is not counted: with it the link count is too high. */
  lemma {:induction false} DeadParent(fs: seq<Node>, d: nat, k: nat, e: Dirent)
    requires Counted(fs) && d < |fs| && !Live(fs[d]) && k <= |fs[d].entries|
    requires 0 < e.inum < |fs| && e.inum != d && fs[e.inum].typ != 0 && fs[e.inum].typ != T_DIR
    ensures !Counted(fs[d := fs[d].(entries := PutEntry(fs[d].entries, k, e))][e.inum := fs[e.inum].(nlink := fs[e.inum].nlink + 1)])
  {
    var fs' := fs[d := fs[d].(entries := PutEntry(fs[d].entries, k, e))][e.inum := fs[e.inum].(nlink := fs[e.inum].nlink + 1)];
    assert CountOk(fs, e.inum);
    SameRefs(fs, fs', e.inum);
    assert !CountOk(fs', e.inum);
  }

  // ---- The tree

  /** Following `names` from the root, none of them "." or "..", leads to directory `d`. */
  ghost predicate Path(fs: seq<Node>, names: seq<Name>, d: nat) {
    if names == [] then d == ROOTINO
    else
      var front, last := names[..|names| - 1], names[|names| - 1];
      exists p: nat, k: nat :: StepTo(fs, p, k, last, d) && Path(fs, front, p)
  }

  /** Entry `k` of `p` is the name of `d`. */
  predicate StepTo(fs: seq<Node>, p: nat, k: nat, name: Name, d: nat) {
    Named(fs, p, k) && fs[p].entries[k] == Dirent(d, name)
  }

  /** Every live directory has a path, as long as it is deep. */
  lemma {:induction false} PathExists(fs: seq<Node>, depth: seq<nat>, d: nat) returns (names: seq<Name>)
    requires Inv(fs, depth) && d < |fs| && Live(fs[d])
    ensures Path(fs, names, d) && |names| == depth[d]
    decreases if d < |depth| then depth[d] else 0
  {
    assert DirOk(fs, depth, d);
    if d == ROOTINO {
      return [];
    }
    var p := Parent(fs, d);
    var k: nat :| Named(fs, p, k) && fs[p].entries[k].inum == d;
    var front := PathExists(fs, depth, p);
    names := front + [fs[p].entries[k].name];
    assert names[..|names| - 1] == front && StepTo(fs, p, k, names[|names| - 1], d);
  }

  /** ... and only one. */
  lemma {:induction false} PathUnique(fs: seq<Node>, depth: seq<nat>, d: nat, a: seq<Name>, b: seq<Name>)
    requires Inv(fs, depth) && d < |fs| && fs[d].typ == T_DIR && Path(fs, a, d) && Path(fs, b, d)
    ensures a == b
    decreases |a|
  {
    if a != [] && b != [] {
      var p: nat, k: nat :| StepTo(fs, p, k, a[|a| - 1], d) && Path(fs, a[..|a| - 1], p);
      var q: nat, l: nat :| StepTo(fs, q, l, b[|b| - 1], d) && Path(fs, b[..|b| - 1], q);
      assert NameOk(fs, p, k) && NameOk(fs, q, l);
      assert k != l ==> PairOk(fs, p, k, l);
      PathUnique(fs, depth, p, a[..|a| - 1], b[..|b| - 1]);
      assert a == a[..|a| - 1] + [a[|a| - 1]] && b == b[..|b| - 1] + [b[|b| - 1]];
    } else if a != [] {
      NotNamed(fs, a);
    } else if b != [] {
      NotNamed(fs, b);
    }
  }

  /** No path of names leads back to the root. */
  lemma {:induction false} NotNamed(fs: seq<Node>, names: seq<Name>)
    requires Names(fs) && ROOTINO < |fs| && fs[ROOTINO].typ == T_DIR && names != []
    ensures !Path(fs, names, ROOTINO)
  {
    var last := names[|names| - 1];
    forall p: nat, k: nat ensures !StepTo(fs, p, k, last, ROOTINO) {
      assert Named(fs, p, k) ==> NameOk(fs, p, k);
    }
  }
}
