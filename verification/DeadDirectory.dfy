/** What can be done from a directory that was removed while it was somebody's current directory:
    two short runs of the name calls on a new volume. */
module DeadDirectory {
  import opened Volume
  import opened FileSystem
  import opened Directory
  import opened Links
  import opened Sysfile

  const D: seq<Byte> := [100]      // names of one letter
  const F: seq<Byte> := [102]

  lemma LetterKeys()
    ensures Key(D) == D && Key(F) == F && Key(DOTDOT) == DOTDOT
    ensures D != F && D != DOT && D != DOTDOT && F != DOT && F != DOTDOT && DOT != DOTDOT
  {
  }

  /** The entries of an empty directory. */
  function Dots(d: nat, up: nat): map<seq<Byte>, nat> {
    map[DOT := d, DOTDOT := up]
  }

  ghost predicate OthersFree(v: seq<Node>, used: set<nat>) {
    forall i: nat :: i < |v| && i !in used ==> v[i] == Node(0, 0, map[])
  }

  /** The root holds directory `d`, which is empty. */
  ghost predicate OneDir(v: seq<Node>, d: nat) {
    && ROOTINO < d < |v| && OthersFree(v, {ROOTINO, d})
    && v[ROOTINO] == Node(T_DIR, 2, Dots(ROOTINO, ROOTINO)[D := d]) && v[d] == Node(T_DIR, 1, Dots(d, ROOTINO))
  }

  lemma FreeInode(fs: Fs, i: nat)
    requires fs.Valid() && 1 <= i < fs.g.ninodes && View(fs)[i].typ == 0
    ensures !NoInode(fs)
  {
  }

  lemma RoomInside(fs: Fs, dp: nat)
    requires fs.Valid() && dp < fs.g.ninodes && fs.inodes[dp].size == 2 * ENTRY
    ensures EntryCost(fs, dp) == 0
  {
  }

  /** With a free inode, a free block and space in the directory, create does not panic. */
  lemma CanCreate(fs: Fs, dp: nat, key: seq<Byte>, typ: int, i: nat)
    requires fs.Valid() && dp < fs.g.ninodes && fs.inodes[dp].size == 2 * ENTRY && key !in View(fs)[dp].entries
    requires 1 <= i < fs.g.ninodes && View(fs)[i].typ == 0 && (typ == T_DIR ==> FreeBlocks(fs.g, fs.owner) > 0)
    ensures EntryCost(fs, dp) == 0 && !CreatePanics(fs, dp, key, typ)
  {
    hide FreeBlocks, Content;
    FreeInode(fs, i);
    RoomInside(fs, dp);
  }

  lemma MadeDir(v: seq<Node>, v': seq<Node>, d: nat)
    requires OnlyRoot(v) && Created(v, v', Some(ROOTINO), D, T_DIR, d)
    ensures OneDir(v', d)
  {
  }

  /** mkdir d */
  method MakeFirst(g: Geometry) returns (fs: Fs, d: nat)
    requires g.Ok() && 3 < g.ninodes <= 0x1_0000 && g.DataStart() + 1 < g.size
    ensures fresh(fs) && fs.g == g && Sane(fs) && OneDir(View(fs), d)
    ensures FreeBlocks(g, fs.owner) == g.size - g.DataStart() - 2 && fs.inodes[d].size == 2 * ENTRY
  {
    hide Geometry.Ok, Geometry.DataStart, Orderly, Consistent, Sound, Content, FreeBlocks, Key, NoInode, CreatePanics,
        EntryCost;
    LetterKeys();
    fs := Format(g);
    ghost var v := View(fs);
    CanCreate(fs, ROOTINO, D, T_DIR, 2);
    var made := Create(fs, Some(ROOTINO), D, T_DIR, 0, 0);
    d := made.inum;
    MadeDir(v, View(fs), d);
  }

  // ----- a file lost

  /** Directory `d` is unlinked, but still in use. */
  ghost predicate DeadDir(v: seq<Node>, d: nat) {
    && ROOTINO < d < |v| && OthersFree(v, {ROOTINO, d})
    && v[ROOTINO] == Node(T_DIR, 1, Dots(ROOTINO, ROOTINO)) && v[d] == Node(T_DIR, 0, Dots(d, ROOTINO))
  }

  lemma CanRemove(v: seq<Node>, dp: nat, d: nat, up: nat)
    requires dp < |v| && D in v[dp].entries && v[dp].entries[D] == d < |v| && v[d].entries == Dots(d, up)
    ensures !UnlinkRefused(v, Some(dp), D)
  {
    LetterKeys();
    assert v[d].Proper() == map[];
  }

  lemma Removed(v: seq<Node>, v': seq<Node>, d: nat)
    requires OneDir(v, d) && Unlinked(v, v', ROOTINO, D, 1)
    ensures DeadDir(v', d)
  {
    assert Dots(ROOTINO, ROOTINO)[D := d] - {D} == Dots(ROOTINO, ROOTINO);
  }

  lemma MadeFile(v: seq<Node>, v': seq<Node>, d: nat, f: nat)
    requires DeadDir(v, d) && Created(v, v', Some(d), F, T_FILE, f)
    ensures f != ROOTINO && f != d && v'[f] == Node(T_FILE, 1, map[]) && v'[d].typ == T_DIR && v'[d].nlink == 0
    ensures Names(v'[d := Node(0, 0, map[])], f) == {}
  {
    LetterKeys();
    var w := v'[d := Node(0, 0, map[])];
    forall j: nat | j < |w|
      ensures w[j].Proper() == map[]
    {
    }
  }

  /** mkdir d; chdir d; unlink ../d; create f; and out of d again.  The counts are wrong once `f`
      is there, and then its only name goes with the directory: it keeps a link for good. */
  method LostFile(g: Geometry) returns (fs: Fs, ghost wrong: seq<Node>, f: nat)
    requires g.Ok() && 3 < g.ninodes <= 0x1_0000 && g.DataStart() + 1 < g.size
    ensures fresh(fs) && Workable(fs) && !Consistent(wrong) && f < |View(fs)|
    ensures View(fs)[f] == Node(T_FILE, 1, map[]) && Names(View(fs), f) == {}
  {
    hide Geometry.Ok, Geometry.DataStart, Orderly, Consistent, Sound, Content, FreeBlocks, Key, NoInode, CreatePanics,
        EntryCost, Names;
    LetterKeys();
    var d;
    fs, d := MakeFirst(g);
    ghost var v1 := View(fs);
    CanRemove(v1, ROOTINO, d, ROOTINO);
    var gone := Unlink(fs, Some(ROOTINO), D, 1);
    ghost var v2 := View(fs);
    Removed(v1, v2, d);
    CanCreate(fs, d, F, T_FILE, if d == 2 then 3 else 2);
    var lost := Create(fs, Some(d), F, T_FILE, 0, 0);
    f := lost.inum;
    wrong := View(fs);
    MadeFile(v2, wrong, d, f);
    Release(fs, d);
  }

  // ----- a kernel trapped

  /** Directory `a` in the root holds directory `b`. */
  ghost predicate TwoDirs(v: seq<Node>, a: nat, b: nat) {
    && ROOTINO < a < |v| && ROOTINO < b < |v| && a != b && OthersFree(v, {ROOTINO, a, b})
    && v[ROOTINO] == Node(T_DIR, 2, Dots(ROOTINO, ROOTINO)[D := a])
    && v[a] == Node(T_DIR, 2, Dots(a, ROOTINO)[D := b]) && v[b] == Node(T_DIR, 1, Dots(b, a))
  }

  lemma MadeSecond(v: seq<Node>, v': seq<Node>, a: nat, b: nat)
    requires OneDir(v, a) && Created(v, v', Some(a), D, T_DIR, b)
    ensures TwoDirs(v', a, b)
  {
  }

  ghost predicate DeadInside(v: seq<Node>, a: nat, b: nat) {
    && ROOTINO < a < |v| && ROOTINO < b < |v| && a != b
    && v[ROOTINO] == Node(T_DIR, 2, Dots(ROOTINO, ROOTINO)[D := a])
    && v[a] == Node(T_DIR, 1, Dots(a, ROOTINO)) && v[b] == Node(T_DIR, 0, Dots(b, a))
  }

  lemma RemovedInside(v: seq<Node>, v': seq<Node>, a: nat, b: nat)
    requires TwoDirs(v, a, b) && Unlinked(v, v', a, D, 1)
    ensures DeadInside(v', a, b)
  {
    assert Dots(a, ROOTINO)[D := b] - {D} == Dots(a, ROOTINO);
  }

  lemma RemovedAbove(v: seq<Node>, v': seq<Node>, a: nat, b: nat)
    requires DeadInside(v, a, b) && Unlinked(v, v', ROOTINO, D, 0)
    ensures b < |v'| && Dangles(v', b, DOTDOT) && v'[b].typ == T_DIR && v'[b].nlink == 0
  {
    LetterKeys();
  }

  /** mkdir a; mkdir a/b; chdir a/b; unlink both; and then create "..": the kernel panics, since
      the parent's inode is free. */
  method Trapped(g: Geometry) returns (fs: Fs, r: Creation)
    requires g.Ok() && 3 < g.ninodes <= 0x1_0000 && g.DataStart() + 2 < g.size
    ensures fresh(fs) && r.Stuck?
  {
    hide Geometry.Ok, Geometry.DataStart, Orderly, Consistent, Sound, Content, FreeBlocks, Key, NoInode, EntryCost,
        Names;
    LetterKeys();
    var a;
    fs, a := MakeFirst(g);
    ghost var v1 := View(fs);
    CanCreate(fs, a, D, T_DIR, if a == 2 then 3 else 2);
    var made := Create(fs, Some(a), D, T_DIR, 0, 0);
    var b := made.inum;
    ghost var v2 := View(fs);
    MadeSecond(v1, v2, a, b);
    CanRemove(v2, a, b, a);
    var gone := Unlink(fs, Some(a), D, 1);
    ghost var v3 := View(fs);
    RemovedInside(v2, v3, a, b);
    CanRemove(v3, ROOTINO, a, ROOTINO);
    gone := Unlink(fs, Some(ROOTINO), D, 0);
    RemovedAbove(v3, View(fs), a, b);
    r := Create(fs, Some(b), DOTDOT, T_FILE, 0, 0);
  }
}
