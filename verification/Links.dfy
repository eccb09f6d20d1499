/** Link counts: the name calls of kernel/sysfile.c on the file system of fs.c.

    The calls are about a sequence of nodes: for every inode its type, its link count
    and, for a directory, the finite map of its entries. */
module Links {
  import opened Volume
  import opened FileSystem
  import opened Directory

  const DOT: seq<Byte> := [46]
  const DOTDOT: seq<Byte> := [46, 46]
  const ROOTINO := 1

  datatype Node = Node(typ: int, nlink: int, entries: map<seq<Byte>, nat>) {
    /** The entries other than "." and "..". */
    function Proper(): map<seq<Byte>, nat> {
      entries - {DOT, DOTDOT}
    }

    predicate LiveDir() {
      typ == T_DIR && nlink != 0
    }
  }

  /** A name in a directory. */
  datatype Name = Name(dir: nat, key: seq<Byte>)

  /** The proper entries that name inode `t`. */
  ghost function Names(v: seq<Node>, t: nat): set<Name> {
    set d: nat, k | d < |v| && k in v[d].Proper() && v[d].Proper()[k] == t :: Name(d, k)
  }

  /** The proper entries of directory `d` that name directories. */
  ghost function Kids(v: seq<Node>, d: nat): set<seq<Byte>>
    requires d < |v|
  {
    set k | k in v[d].Proper() && v[d].Proper()[k] < |v| && v[v[d].Proper()[k]].typ == T_DIR
  }

  /** A file's link count is the number of entries that name it. */
  ghost predicate FileCount(v: seq<Node>, i: nat)
    requires i < |v|
  {
    v[i].typ != 0 && v[i].typ != T_DIR ==> v[i].nlink == |Names(v, i)|
  }

  /** A directory's link count is one more than the number of its child directories, and
      at most one entry names it; an unlinked one is empty and has no name. */
  ghost predicate DirCount(v: seq<Node>, i: nat)
    requires i < |v|
  {
    v[i].typ == T_DIR ==>
      if v[i].nlink == 0 then v[i].Proper() == map[] && Names(v, i) == {}
      else v[i].nlink == 1 + |Kids(v, i)| && |Names(v, i)| <= 1
  }

  /** Names are of inodes in use. */
  ghost predicate TargetsOk(v: seq<Node>, i: nat)
    requires i < |v|
  {
    forall k :: k in v[i].Proper() ==> 0 < v[i].Proper()[k] < |v| && v[v[i].Proper()[k]].typ != 0
  }

  /** Directories have their dots, and "." is the directory itself. */
  ghost predicate DotsThere(v: seq<Node>, i: nat)
    requires i < |v|
  {
    if v[i].typ != T_DIR then v[i].entries == map[]
    else DOT in v[i].entries && DOTDOT in v[i].entries && v[i].entries[DOT] == i && v[i].entries[DOTDOT] < |v|
  }

  /** ".." of a directory in use is a directory in use that holds it, or itself at the root. */
  ghost predicate DotsOk(v: seq<Node>, i: nat)
    requires i < |v|
  {
    && DotsThere(v, i)
    && (v[i].LiveDir() ==>
          && v[v[i].entries[DOTDOT]].LiveDir()
          && (v[i].entries[DOTDOT] == i || exists k :: Name(v[i].entries[DOTDOT], k) in Names(v, i)))
  }

  ghost predicate NodeOk(v: seq<Node>, i: nat)
    requires i < |v|
  {
    FileCount(v, i) && DirCount(v, i) && TargetsOk(v, i) && DotsOk(v, i)
  }

  ghost predicate Consistent(v: seq<Node>) {
    forall i :: 0 <= i < |v| ==> NodeOk(v, i)
  }

  // ----- how names and children change

  /** `v'` has the proper entries of `v` except that directory `n.dir` gained `n` for `t`. */
  ghost predicate Gains(v: seq<Node>, v': seq<Node>, n: Name, t: nat) {
    && |v'| == |v| && n.dir < |v| && n.key !in v[n.dir].Proper()
    && v'[n.dir].Proper() == v[n.dir].Proper()[n.key := t]
    && forall d :: 0 <= d < |v| && d != n.dir ==> v'[d].Proper() == v[d].Proper()
  }

  lemma NamesGain(v: seq<Node>, v': seq<Node>, n: Name, t: nat)
    requires Gains(v, v', n, t)
    ensures n !in Names(v, t) && Names(v', t) == Names(v, t) + {n}
    ensures forall i: nat :: i != t ==> Names(v', i) == Names(v, i)
  {
  }

  /** `v` has the proper entries of `v'` except that directory `n.dir` lost `n`. */
  lemma NamesLose(v: seq<Node>, v': seq<Node>, n: Name, t: nat)
    requires Gains(v', v, n, t)
    ensures n in Names(v, t) && Names(v', t) == Names(v, t) - {n}
    ensures forall i: nat :: i != t ==> Names(v', i) == Names(v, i)
  {
  }

  lemma KidsSame(v: seq<Node>, v': seq<Node>, d: nat)
    requires |v'| == |v| && d < |v| && v'[d].Proper() == v[d].Proper()
    requires forall k :: k in v[d].Proper() && v[d].Proper()[k] < |v| ==>
               (v'[v[d].Proper()[k]].typ == T_DIR <==> v[v[d].Proper()[k]].typ == T_DIR)
    ensures Kids(v', d) == Kids(v, d)
  {
  }

  /** Inodes keep their types, except that a free one may have been taken, and
      directories in use stay in use. */
  ghost predicate TypesKept(v: seq<Node>, v': seq<Node>) {
    && |v'| == |v|
    && (forall j :: 0 <= j < |v| && v[j].typ != 0 ==> v'[j].typ == v[j].typ)
    && (forall j :: 0 <= j < |v| && v[j].LiveDir() ==> v'[j].LiveDir())
  }

  /** A node that a new name does not concern is as consistent as before. */
  lemma BystanderKept(v: seq<Node>, v': seq<Node>, n: Name, t: nat, i: nat)
    requires Consistent(v) && Gains(v, v', n, t) && TypesKept(v, v')
    requires i < |v| && i != n.dir && i != t && v'[i] == v[i]
    ensures NodeOk(v', i)
  {
    hide Gains, Names, Kids;
    assert NodeOk(v, i);
    NamesGain(v, v', n, t);
    assert v'[i].Proper() == v[i].Proper();
    KidsSame(v, v', i);
    if v[i].LiveDir() && v[i].entries[DOTDOT] != i {
      var k :| Name(v[i].entries[DOTDOT], k) in Names(v, i);
      assert Name(v'[i].entries[DOTDOT], k) in Names(v', i);
    }
  }

  /** The directory that gains a name: one more child if the name is a directory's. */
  lemma ParentKept(v: seq<Node>, v': seq<Node>, n: Name, t: nat)
    requires Consistent(v) && Gains(v, v', n, t) && TypesKept(v, v')
    requires n.dir != t && 0 < t < |v| && v'[t].typ != 0 && v[n.dir].LiveDir()
    requires v'[n.dir].typ == T_DIR && v'[n.dir].entries == v[n.dir].entries[n.key := t]
    requires v'[n.dir].nlink == v[n.dir].nlink + if v'[t].typ == T_DIR then 1 else 0
    requires n.key != DOT && n.key != DOTDOT
    ensures NodeOk(v', n.dir)
  {
    hide Names;
    var i := n.dir;
    assert NodeOk(v, i);
    NamesGain(v, v', n, t);
    if v'[t].typ == T_DIR {
      assert Kids(v', i) == Kids(v, i) + {n.key} && n.key !in Kids(v, i);
    } else {
      assert Kids(v', i) == Kids(v, i);
    }
    if v[i].entries[DOTDOT] != i {
      var k :| Name(v[i].entries[DOTDOT], k) in Names(v, i);
      assert Name(v'[i].entries[DOTDOT], k) in Names(v', i);
    }
  }

  // ----- the transitions

  lemma ProperGrows(x: Node, key: seq<Byte>, t: nat)
    requires key != DOT && key != DOTDOT
    ensures x.(entries := x.entries[key := t]).Proper() == x.Proper()[key := t]
  {
  }

  /** The parent directory once a name for inode `t` is in it. */
  function Holding(x: Node, key: seq<Byte>, t: nat, links: int): Node {
    x.(entries := x.entries[key := t], nlink := x.nlink + links)
  }

  /** sys_link: one more entry for a file, and one more link. */
  lemma LinkKeeps(v: seq<Node>, v': seq<Node>, ip: nat, dp: nat, key: seq<Byte>)
    requires Consistent(v) && 0 < ip < |v| && dp < |v| && ip != dp
    requires v[ip].typ != 0 && v[ip].typ != T_DIR && v[dp].LiveDir() && key !in v[dp].entries
    requires v' == v[dp := Holding(v[dp], key, ip, 0)][ip := v[ip].(nlink := v[ip].nlink + 1)]
    ensures Consistent(v')
  {
    hide Names, Kids;
    var n := Name(dp, key);
    assert NodeOk(v, dp) && NodeOk(v, ip);
    ProperGrows(v[dp], key, ip);
    assert Gains(v, v', n, ip);
    NamesGain(v, v', n, ip);
    forall i | 0 <= i < |v|
      ensures NodeOk(v', i)
    {
      if i == dp {
        ParentKept(v, v', n, ip);
      } else if i != ip {
        BystanderKept(v, v', n, ip, i);
      }
    }
  }

  /** create for a file or device: a free inode is taken and named. */
  lemma CreateFileKeeps(v: seq<Node>, v': seq<Node>, ip: nat, dp: nat, key: seq<Byte>, typ: int)
    requires Consistent(v) && 0 < ip < |v| && dp < |v|
    requires v[ip].typ == 0 && typ != 0 && typ != T_DIR && v[dp].LiveDir() && key !in v[dp].entries
    requires v' == v[dp := Holding(v[dp], key, ip, 0)][ip := Node(typ, 1, map[])]
    ensures Consistent(v')
  {
    hide Names, Kids;
    var n := Name(dp, key);
    assert NodeOk(v, dp) && NodeOk(v, ip);
    ProperGrows(v[dp], key, ip);
    assert Gains(v, v', n, ip);
    NamesGain(v, v', n, ip);
    FreeHasNoNames(v, ip);
    forall i | 0 <= i < |v|
      ensures NodeOk(v', i)
    {
      if i == dp {
        ParentKept(v, v', n, ip);
      } else if i != ip {
        BystanderKept(v, v', n, ip, i);
      }
    }
  }

  lemma FreeHasNoNames(v: seq<Node>, t: nat)
    requires Consistent(v) && t < |v| && v[t].typ == 0
    ensures Names(v, t) == {}
  {
    forall d: nat, k | d < |v| && k in v[d].Proper()
      ensures v[d].Proper()[k] != t
    {
      assert NodeOk(v, d);
    }
  }

  /** create for a directory: a free inode becomes a directory with its dots and a name. */
  lemma CreateDirKeeps(v: seq<Node>, v': seq<Node>, ip: nat, dp: nat, key: seq<Byte>)
    requires Consistent(v) && 0 < ip < |v| && dp < |v|
    requires v[ip].typ == 0 && v[dp].LiveDir() && key !in v[dp].entries
    requires v' == v[dp := Holding(v[dp], key, ip, 1)][ip := Node(T_DIR, 1, map[DOT := ip, DOTDOT := dp])]
    ensures Consistent(v')
  {
    hide Names;
    var n := Name(dp, key);
    assert NodeOk(v, dp) && NodeOk(v, ip);
    ProperGrows(v[dp], key, ip);
    DotsDiffer();
    DirHasLinks(v, dp);
    assert v'[ip].Proper() == map[];
    assert Gains(v, v', n, ip);
    NamesGain(v, v', n, ip);
    FreeHasNoNames(v, ip);
    forall i | 0 <= i < |v|
      ensures NodeOk(v', i)
    {
      if i == dp {
        ParentKept(v, v', n, ip);
      } else if i == ip {
        assert Kids(v', ip) == {};
        assert n in Names(v', ip);
      } else {
        BystanderKept(v, v', n, ip, i);
      }
    }
  }

  lemma DotsDiffer()
    ensures DOT != DOTDOT
  {
  }

  lemma DirHasLinks(v: seq<Node>, d: nat)
    requires Consistent(v) && d < |v| && v[d].LiveDir()
    ensures v[d].nlink >= 1
  {
    assert NodeOk(v, d);
  }

  /** Name `n` of inode `t` goes: types stay, directories in use stay in use except
      perhaps `t`, which is then empty. */
  ghost predicate Loses(v: seq<Node>, v': seq<Node>, n: Name, t: nat) {
    && |v'| == |v| && t < |v| && t != n.dir && Gains(v', v, n, t)
    && n.key != DOT && n.key != DOTDOT && v[n.dir].LiveDir()
    && v'[n.dir].entries == v[n.dir].entries - {n.key}
    && (forall j :: 0 <= j < |v| ==> v'[j].typ == v[j].typ)
    && (forall j :: 0 <= j < |v| && j != t && j != n.dir ==> v'[j] == v[j])
    && (v'[t].LiveDir() || v[t].Proper() == map[])
  }

  /** A node that a lost name does not concern is as consistent as before. */
  lemma BystanderLeft(v: seq<Node>, v': seq<Node>, n: Name, t: nat, i: nat)
    requires Consistent(v) && Loses(v, v', n, t) && v'[n.dir].LiveDir()
    requires i < |v| && i != n.dir && i != t
    ensures NodeOk(v', i)
  {
    hide Gains, Kids;
    assert NodeOk(v, i);
    NamesLose(v, v', n, t);
    KidsSame(v, v', i);
    if v[i].LiveDir() && v[i].entries[DOTDOT] != i {
      var k :| Name(v[i].entries[DOTDOT], k) in Names(v, i);
      assert Name(v'[i].entries[DOTDOT], k) in Names(v', i);
    }
  }

  /** The directory that loses a name: one child less if the name was a directory's. */
  lemma ParentLeft(v: seq<Node>, v': seq<Node>, n: Name, t: nat)
    requires Consistent(v) && Loses(v, v', n, t)
    requires v'[n.dir].nlink == v[n.dir].nlink - if v[t].typ == T_DIR then 1 else 0
    ensures v'[n.dir].nlink >= 1 && NodeOk(v', n.dir)
  {
    hide Names;
    var i := n.dir;
    assert NodeOk(v, i);
    NamesLose(v, v', n, t);
    if v[t].typ == T_DIR {
      assert Kids(v, i) == Kids(v', i) + {n.key} && n.key !in Kids(v', i);
    } else {
      assert Kids(v', i) == Kids(v, i);
    }
    DotsLeft(v, v', n, t);
    assert forall k :: k in v'[i].Proper() ==> k in v[i].Proper() && v[i].Proper()[k] == v'[i].Proper()[k];
  }

  lemma DotsLeft(v: seq<Node>, v': seq<Node>, n: Name, t: nat)
    requires Loses(v, v', n, t) && DotsOk(v, n.dir) && v'[n.dir].LiveDir()
    requires Names(v', n.dir) == Names(v, n.dir)
    ensures DotsOk(v', n.dir)
  {
  }

  /** The parent directory once a name is gone from it. */
  function Dropping(x: Node, key: seq<Byte>, links: int): Node {
    x.(entries := x.entries - {key}, nlink := x.nlink - links)
  }

  /** sys_unlink: the entry goes, with a link of its target and, for an empty directory,
      a link of its parent. */
  lemma UnlinkKeeps(v: seq<Node>, v': seq<Node>, ip: nat, dp: nat, key: seq<Byte>)
    requires Consistent(v) && dp < |v| && v[dp].LiveDir() && key in v[dp].Proper() && v[dp].Proper()[key] == ip
    requires ip < |v| && (v[ip].typ == T_DIR ==> v[ip].Proper() == map[])
    requires v' ==
        v[dp := Dropping(v[dp], key, if v[ip].typ == T_DIR then 1 else 0)][ip := v[ip].(nlink := v[ip].nlink - 1)]
    ensures ip != dp && v[ip].nlink >= 1 && v'[dp].LiveDir() && Consistent(v')
  {
    hide Kids, Names;
    var n := Name(dp, key);
    assert NodeOk(v, dp) && NodeOk(v, ip);
    assert ip != dp;
    assert v[dp].Proper() == v'[dp].Proper()[key := ip];
    assert Loses(v, v', n, ip);
    ParentLeft(v, v', n, ip);
    NamesLose(v, v', n, ip);
    if v[ip].typ == T_DIR {
      OnlyOne(Names(v, ip), n);
      assert Kids(v, ip) == {} by {
        NoKids(v, ip);
      }
    }
    forall i | 0 <= i < |v|
      ensures NodeOk(v', i)
    {
      if i != dp && i != ip {
        BystanderLeft(v, v', n, ip, i);
      }
    }
  }

  lemma OnlyOne<T>(s: set<T>, x: T)
    requires x in s && |s| <= 1
    ensures s == {x}
  {
    assert |s - {x}| == 0;
  }

  lemma NoKids(v: seq<Node>, d: nat)
    requires d < |v| && v[d].Proper() == map[]
    ensures Kids(v, d) == {}
  {
  }

  /** iput on an inode without links: it becomes free. */
  lemma FreeKeeps(v: seq<Node>, i: nat)
    requires Consistent(v) && i < |v| && v[i].typ != 0 && v[i].nlink == 0
    ensures Consistent(v[i := Node(0, 0, map[])])
  {
    hide Kids;
    var v' := v[i := Node(0, 0, map[])];
    assert NodeOk(v, i);
    assert Names(v, i) == {};
    forall j: nat
      ensures Names(v', j) == Names(v, j)
    {
      assert forall m :: m in Names(v', j) <==> m in Names(v, j);
    }
    forall j | 0 <= j < |v|
      ensures NodeOk(v', j)
    {
      assert NodeOk(v, j);
      if j != i {
        forall k | k in v[j].Proper()
          ensures v[j].Proper()[k] != i
        {
          assert Name(j, k) !in Names(v, i);
        }
        KidsSame(v, v', j);
      }
    }
  }

  // ----- the directories in use are a tree

  /** The directory that ".." of directory `i` names, and `i` itself if there is no "..". */
  function Up(v: seq<Node>, i: nat): nat {
    if i < |v| && DOTDOT in v[i].entries then v[i].entries[DOTDOT] else i
  }

  /** At most `n` steps up from directory `i` lead to the root. */
  ghost predicate Climbs(v: seq<Node>, i: nat, n: nat)
    decreases n
  {
    i == ROOTINO || (n > 0 && Climbs(v, Up(v, i), n - 1))
  }

  ghost predicate UnderRoot(v: seq<Node>, i: nat) {
    exists n: nat :: Climbs(v, i, n)
  }

  /** The root is a directory in use that holds itself and has no name, and climbing from any
      directory in use leads there. */
  ghost predicate Rooted(v: seq<Node>) {
    && ROOTINO < |v| && v[ROOTINO].LiveDir() && Up(v, ROOTINO) == ROOTINO && Names(v, ROOTINO) == {}
    && forall i :: 0 <= i < |v| && v[i].LiveDir() ==> UnderRoot(v, i)
  }

  ghost predicate SameWay(v: seq<Node>, v': seq<Node>, good: set<nat>, i: nat) {
    Up(v, i) in good && Up(v', i) == Up(v, i)
  }

  /** Directories whose ".." stays as it was climb as before. */
  lemma {:induction false} ClimbsKept(v: seq<Node>, v': seq<Node>, good: set<nat>, i: nat, n: nat)
    requires i in good && forall j {:trigger SameWay(v, v', good, j)} :: j in good ==> SameWay(v, v', good, j)
    requires Climbs(v, i, n)
    ensures Climbs(v', i, n)
    decreases n
  {
    if i != ROOTINO {
      assert SameWay(v, v', good, i);
      ClimbsKept(v, v', good, Up(v, i), n - 1);
    }
  }

  ghost function LiveDirs(v: seq<Node>): set<nat> {
    set i: nat | i < |v| && v[i].LiveDir()
  }

  /** The parent of a directory in use is one. */
  lemma ParentLives(v: seq<Node>, i: nat)
    requires Consistent(v) && i in LiveDirs(v)
    ensures Up(v, i) in LiveDirs(v)
  {
    assert NodeOk(v, i);
  }

  lemma {:induction false} NoLoops(v: seq<Node>, i: nat, n: nat)
    requires Climbs(v, i, n) && Up(v, i) == i
    ensures i == ROOTINO
  {
    if i != ROOTINO {
      NoLoops(v, i, n - 1);
    }
  }

  /** A directory in use other than the root has exactly one name, in the directory that its
      ".." names, and is not its own parent. */
  lemma OneName(v: seq<Node>, i: nat)
    requires Consistent(v) && Rooted(v) && i < |v| && v[i].LiveDir() && i != ROOTINO
    ensures Up(v, i) != i && exists k :: Names(v, i) == {Name(Up(v, i), k)}
  {
    hide Names;
    assert NodeOk(v, i);
    var n: nat :| Climbs(v, i, n);
    if Up(v, i) == i {
      NoLoops(v, i, n);
    }
    var k :| Name(v[i].entries[DOTDOT], k) in Names(v, i);
    OnlyOne(Names(v, i), Name(Up(v, i), k));
  }

  /** link, unlink, create of a file and the freeing of an inode take no ".." away from a
      directory that stays in use and add no directory. */
  lemma SameTree(v: seq<Node>, v': seq<Node>)
    requires Consistent(v') && Rooted(v) && |v'| == |v| && LiveDirs(v') <= LiveDirs(v)
    requires forall i :: i in LiveDirs(v') ==> Up(v', i) == Up(v, i)
    requires ROOTINO in LiveDirs(v') && Names(v', ROOTINO) == {}
    ensures Rooted(v')
  {
    hide Consistent, Names, Climbs, Up;
    forall i {:trigger SameWay(v, v', LiveDirs(v'), i)} | i in LiveDirs(v')
      ensures SameWay(v, v', LiveDirs(v'), i)
    {
      ParentLives(v', i);
    }
    forall i | 0 <= i < |v| && v'[i].LiveDir()
      ensures UnderRoot(v', i)
    {
      assert i in LiveDirs(v') && i in LiveDirs(v);
      var n: nat :| Climbs(v, i, n);
      ClimbsKept(v, v', LiveDirs(v'), i, n);
    }
  }

  lemma LinkKeepsTree(v: seq<Node>, v': seq<Node>, ip: nat, dp: nat, key: seq<Byte>)
    requires Consistent(v) && Consistent(v') && Rooted(v) && 0 < ip < |v| && dp < |v| && ip != dp
    requires v[ip].typ != 0 && v[ip].typ != T_DIR && v[dp].LiveDir() && key !in v[dp].entries
    requires v' == v[dp := Holding(v[dp], key, ip, 0)][ip := v[ip].(nlink := v[ip].nlink + 1)]
    ensures Rooted(v')
  {
    assert NodeOk(v, dp);
    ProperGrows(v[dp], key, ip);
    NamesGain(v, v', Name(dp, key), ip);
    hide Names, Consistent;
    SameTree(v, v');
  }

  lemma CreateFileKeepsTree(v: seq<Node>, v': seq<Node>, ip: nat, dp: nat, key: seq<Byte>, typ: int)
    requires Consistent(v) && Consistent(v') && Rooted(v) && 0 < ip < |v| && dp < |v|
    requires v[ip].typ == 0 && typ != 0 && typ != T_DIR && v[dp].LiveDir() && key !in v[dp].entries
    requires v' == v[dp := Holding(v[dp], key, ip, 0)][ip := Node(typ, 1, map[])]
    ensures Rooted(v')
  {
    assert NodeOk(v, dp) && NodeOk(v, ip);
    ProperGrows(v[dp], key, ip);
    NamesGain(v, v', Name(dp, key), ip);
    hide Names, Consistent;
    SameTree(v, v');
  }

  /** The old directories climb as before once a free inode has become a directory. */
  lemma OldDirsClimb(v: seq<Node>, v': seq<Node>)
    requires Consistent(v) && Rooted(v) && forall i :: i in LiveDirs(v) ==> Up(v', i) == Up(v, i)
    ensures forall i :: i in LiveDirs(v) ==> UnderRoot(v', i)
  {
    hide Consistent, Names, Climbs, Up;
    forall i {:trigger SameWay(v, v', LiveDirs(v), i)} | i in LiveDirs(v)
      ensures SameWay(v, v', LiveDirs(v), i)
    {
      ParentLives(v, i);
    }
    forall i | i in LiveDirs(v)
      ensures UnderRoot(v', i)
    {
      var n: nat :| Climbs(v, i, n);
      ClimbsKept(v, v', LiveDirs(v), i, n);
    }
  }

  /** A new directory is a leaf below its parent. */
  lemma CreateDirKeepsTree(v: seq<Node>, v': seq<Node>, ip: nat, dp: nat, key: seq<Byte>)
    requires Consistent(v) && Rooted(v) && 0 < ip < |v| && dp < |v|
    requires v[ip].typ == 0 && v[dp].LiveDir() && key !in v[dp].entries
    requires v' == v[dp := Holding(v[dp], key, ip, 1)][ip := Node(T_DIR, 1, map[DOT := ip, DOTDOT := dp])]
    ensures Rooted(v')
  {
    hide Names, Climbs, UnderRoot;
    assert NodeOk(v, dp) && NodeOk(v, ip);
    DirHasLinks(v, dp);
    DotsDiffer();
    ProperGrows(v[dp], key, ip);
    assert v'[ip].Proper() == map[];
    NamesGain(v, v', Name(dp, key), ip);
    OldDirsClimb(v, v');
    StepDown(v', ip, dp);
  }

  lemma StepDown(v: seq<Node>, i: nat, p: nat)
    requires UnderRoot(v, p) && Up(v, i) == p
    ensures UnderRoot(v, i)
  {
    var n: nat :| Climbs(v, p, n);
    assert Climbs(v, i, n + 1);
  }

  /** Only a leaf is taken away, and never the root. */
  lemma UnlinkKeepsTree(v: seq<Node>, v': seq<Node>, ip: nat, dp: nat, key: seq<Byte>)
    requires Consistent(v) && Consistent(v') && Rooted(v)
    requires dp < |v| && v[dp].LiveDir() && key in v[dp].Proper() && v[dp].Proper()[key] == ip && ip != dp && ip < |v|
    requires v' ==
        v[dp := Dropping(v[dp], key, if v[ip].typ == T_DIR then 1 else 0)][ip := v[ip].(nlink := v[ip].nlink - 1)]
    requires v'[dp].LiveDir()
    ensures Rooted(v')
  {
    assert Name(dp, key) in Names(v, ip);
    assert v[dp].Proper() == v'[dp].Proper()[key := ip];
    NamesLose(v, v', Name(dp, key), ip);
    assert NodeOk(v, ip);
    hide Names, Consistent;
    SameTree(v, v');
  }

  lemma FreeKeepsTree(v: seq<Node>, i: nat)
    requires Consistent(v) && Rooted(v) && i < |v| && v[i].nlink == 0
    requires Consistent(v[i := Node(0, 0, map[])])
    ensures Rooted(v[i := Node(0, 0, map[])])
  {
    var v' := v[i := Node(0, 0, map[])];
    assert forall m :: m in Names(v', ROOTINO) ==> m in Names(v, ROOTINO);
    hide Names, Consistent;
    SameTree(v, v');
  }

  // ----- what every call keeps, whatever directory it works in

  /** There are at least as many links as names and child directories to count. */
  ghost predicate Covered(v: seq<Node>, i: nat)
    requires i < |v|
  {
    v[i].typ != 0 ==> v[i].nlink >= |Names(v, i)| + if v[i].typ == T_DIR then |Kids(v, i)| else 0
  }

  ghost predicate SoundNode(v: seq<Node>, i: nat)
    requires i < |v|
  {
    Covered(v, i) && TargetsOk(v, i) && DotsThere(v, i)
  }

  /** No name but the dots is of a free inode and no inode has fewer links than such names; so
      nothing that has a name is ever freed.  Inode 0 is not in use. */
  ghost predicate Sound(v: seq<Node>) {
    |v| > 0 && v[0].typ == 0 && forall i :: 0 <= i < |v| ==> SoundNode(v, i)
  }

  lemma ConsistentIsSound(v: seq<Node>)
    requires Consistent(v) && |v| > 0 && v[0].typ == 0
    ensures Sound(v)
  {
    hide Names;
    forall i | 0 <= i < |v|
      ensures SoundNode(v, i)
    {
      assert NodeOk(v, i);
      if v[i].typ == T_DIR && v[i].nlink == 0 {
        NoKids(v, i);
      }
    }
  }

  lemma FreeIsUnnamed(v: seq<Node>, t: nat)
    requires Sound(v) && t < |v| && v[t].typ == 0
    ensures Names(v, t) == {}
  {
    forall d: nat, k | d < |v| && k in v[d].Proper()
      ensures v[d].Proper()[k] != t
    {
      assert SoundNode(v, d);
    }
  }

  /** Directory `n.dir` gained the name `n` for inode `t`, and the links that go with it. */
  ghost predicate Named(v: seq<Node>, v': seq<Node>, n: Name, t: nat) {
    && Gains(v, v', n, t) && n.dir != t && 0 < t < |v| && n.key != DOT && n.key != DOTDOT
    && v[n.dir].typ == T_DIR && v'[t].typ != 0 && (v[t].typ == 0 || v'[t].typ == v[t].typ)
    && v'[n.dir] == v[n.dir].(entries := v[n.dir].entries[n.key := t], nlink := v'[n.dir].nlink)
    && v'[n.dir].nlink >= v[n.dir].nlink + (if v[t].typ == 0 && v'[t].typ == T_DIR then 1 else 0)
    && v'[t].nlink >= 1 + (if v[t].typ == 0 then 0 else v[t].nlink)
    && v'[t].Proper() == v[t].Proper() && (v[t].typ == 0 || v'[t].typ != T_DIR)
    && forall j :: 0 <= j < |v| && j != n.dir && j != t ==> v'[j] == v[j]
  }

  /** The child directories of a directory that gained a name. */
  lemma KidsGain(v: seq<Node>, v': seq<Node>, n: Name, t: nat)
    requires Gains(v, v', n, t) && t < |v|
    requires forall k :: k in v[n.dir].Proper() && v[n.dir].Proper()[k] < |v| ==>
               (v'[v[n.dir].Proper()[k]].typ == T_DIR <==> v[v[n.dir].Proper()[k]].typ == T_DIR)
    ensures n.key !in Kids(v, n.dir) && Kids(v', n.dir) == Kids(v, n.dir) + if v'[t].typ == T_DIR then {n.key} else {}
  {
  }

  lemma NamedParent(v: seq<Node>, v': seq<Node>, n: Name, t: nat)
    requires Sound(v) && Named(v, v', n, t) && Names(v', n.dir) == Names(v, n.dir)
    ensures SoundNode(v', n.dir)
  {
    hide Names, Kids;
    assert SoundNode(v, n.dir);
    KidsGain(v, v', n, t);
  }

  lemma NamedTarget(v: seq<Node>, v': seq<Node>, n: Name, t: nat)
    requires Sound(v) && Named(v, v', n, t) && DotsThere(v', t) && Names(v', t) == Names(v, t) + {n}
    requires v[t].typ == 0 ==> Names(v, t) == {}
    ensures SoundNode(v', t)
  {
    hide Names;
    assert SoundNode(v, t);
    if v[t].typ == 0 {
      assert v'[t].Proper() == map[];
      NoKids(v', t);
    }
  }

  lemma NamedBystander(v: seq<Node>, v': seq<Node>, n: Name, t: nat, i: nat)
    requires Sound(v) && Named(v, v', n, t) && i < |v| && i != n.dir && i != t && Names(v', i) == Names(v, i)
    ensures SoundNode(v', i)
  {
    hide Names, Kids;
    assert SoundNode(v, i);
    KidsSame(v, v', i);
  }

  /** A new name keeps soundness, in an unlinked directory too. */
  lemma NamedIsSound(v: seq<Node>, v': seq<Node>, n: Name, t: nat)
    requires Sound(v) && Named(v, v', n, t) && DotsThere(v', t)
    ensures Sound(v')
  {
    NamesGain(v, v', n, t);
    if v[t].typ == 0 {
      FreeIsUnnamed(v, t);
    }
    NamedParent(v, v', n, t);
    NamedTarget(v, v', n, t);
    hide Names, SoundNode;
    forall i | 0 <= i < |v|
      ensures SoundNode(v', i)
    {
      if i != n.dir && i != t {
        NamedBystander(v, v', n, t, i);
      }
    }
  }

  /** Directory `n.dir` lost the name `n` of inode `t`, and the links that went with it. */
  ghost predicate Unnamed(v: seq<Node>, v': seq<Node>, n: Name, t: nat) {
    && n.dir < |v| && t < |v| && n.key in v[n.dir].Proper() && v[n.dir].Proper()[n.key] == t
    && (v[t].typ == T_DIR ==> v[t].Proper() == map[])
    && v' == v[n.dir := Dropping(v[n.dir], n.key, if v[t].typ == T_DIR then 1
       else 0)][t := v[t].(nlink := v[t].nlink - 1)]
  }

  lemma UnnamedApart(v: seq<Node>, v': seq<Node>, n: Name, t: nat)
    requires Sound(v) && Unnamed(v, v', n, t)
    ensures t != n.dir && v[t].nlink >= 1 && Gains(v', v, n, t)
  {
    assert SoundNode(v, n.dir) && SoundNode(v, t);
    assert t != n.dir;
    assert n in Names(v, t);
    assert v[n.dir].Proper() == v'[n.dir].Proper()[n.key := t];
  }

  lemma UnnamedParent(v: seq<Node>, v': seq<Node>, n: Name, t: nat)
    requires Sound(v) && Unnamed(v, v', n, t) && Gains(v', v, n, t) && t != n.dir && Names(v', n.dir) == Names(v, n.dir)
    ensures SoundNode(v', n.dir)
  {
    hide Names, Kids;
    assert SoundNode(v, n.dir);
    KidsGain(v', v, n, t);
    assert forall k :: k in v'[n.dir].Proper() ==>
        k in v[n.dir].Proper() && v[n.dir].Proper()[k] == v'[n.dir].Proper()[k];
  }

  lemma UnnamedTarget(v: seq<Node>, v': seq<Node>, n: Name, t: nat)
    requires Sound(v) && Unnamed(v, v', n, t) && t != n.dir && n in Names(v, t) && Names(v', t) == Names(v, t) - {n}
    ensures SoundNode(v', t)
  {
    hide Names, Kids;
    assert SoundNode(v, t);
    KidsSame(v, v', t);
  }

  /** Unlinking keeps soundness, and the inode had a link to lose. */
  lemma UnnamedIsSound(v: seq<Node>, v': seq<Node>, n: Name, t: nat)
    requires Sound(v) && Unnamed(v, v', n, t)
    ensures t != n.dir && v[t].nlink >= 1 && Sound(v')
  {
    UnnamedApart(v, v', n, t);
    NamesLose(v, v', n, t);
    UnnamedParent(v, v', n, t);
    UnnamedTarget(v, v', n, t);
    hide Names, Kids;
    forall i | 0 <= i < |v|
      ensures SoundNode(v', i)
    {
      if i != n.dir && i != t {
        assert SoundNode(v, i);
        KidsSame(v, v', i);
      }
    }
  }

  /** Freeing an inode without links: nothing names it, whatever it may hold itself. */
  lemma FreedIsSound(v: seq<Node>, i: nat)
    requires Sound(v) && i < |v| && v[i].typ != 0 && v[i].nlink == 0
    ensures Sound(v[i := Node(0, 0, map[])])
  {
    hide Kids;
    var v' := v[i := Node(0, 0, map[])];
    assert SoundNode(v, i);
    assert Names(v, i) == {};
    forall j | 0 <= j < |v|
      ensures SoundNode(v', j)
    {
      assert SoundNode(v, j);
      FewerNames(Names(v', j), Names(v, j));
      if j != i {
        forall k | k in v[j].Proper()
          ensures v[j].Proper()[k] != i
        {
          assert Name(j, k) !in Names(v, i);
        }
        KidsSame(v, v', j);
      }
    }
  }

  lemma FewerNames(a: set<Name>, b: set<Name>)
    requires a <= b
    ensures |a| <= |b|
  {
    assert b == a + (b - a);
  }

  // ----- directories that are unlinked but still in use

  /** Nothing can be removed from an unlinked directory: it has no proper entries. */
  lemma DeadIsEmpty(v: seq<Node>, dp: nat)
    requires Consistent(v) && dp < |v| && v[dp].typ == T_DIR && v[dp].nlink == 0
    ensures v[dp].Proper() == map[]
  {
    assert NodeOk(v, dp);
  }

  /** Whatever is named in an unlinked directory, the counts are wrong from then on. */
  lemma DeadGainsName(v: seq<Node>, v': seq<Node>, ip: nat, dp: nat, key: seq<Byte>)
    requires dp < |v| == |v'| && v[dp].typ == T_DIR && v[dp].nlink == 0 && ip < |v| && ip != dp
    requires key != DOT && key != DOTDOT
    requires v'[dp] == Holding(v[dp], key, ip, if v'[ip].typ == T_DIR then 1 else 0)
    ensures !Consistent(v')
  {
    ProperGrows(v[dp], key, ip);
    assert key in v'[dp].Proper() && v'[dp].Proper()[key] == ip;
    if v'[ip].typ == T_DIR {
      assert key in Kids(v', dp);
      assert !DirCount(v', dp);
    }
    assert !NodeOk(v', dp);
  }

  /** mkfs leaves a root directory that holds itself, and free inodes. */
  lemma FreshIsConsistent(v: seq<Node>, root: nat)
    requires root < |v| && v[root] == Node(T_DIR, 1, map[DOT := root, DOTDOT := root])
    requires forall i :: 0 <= i < |v| && i != root ==> v[i] == Node(0, 0, map[])
    ensures Consistent(v) && (root == ROOTINO ==> Rooted(v) && Sound(v))
  {
    DotsDiffer();
    assert v[root].Proper() == map[];
    forall i | 0 <= i < |v|
      ensures NodeOk(v, i)
    {
      assert Names(v, i) == {} && Kids(v, i) == {};
    }
    assert Climbs(v, ROOTINO, 0);
    if root == ROOTINO {
      ConsistentIsSound(v);
    }
  }
}
