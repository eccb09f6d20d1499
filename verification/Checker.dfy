/** The check mode of the image checker, Project5-1/xv6_fsck.c: the reference counts, the match
    of child entries and "..", and the walk towards the root.

    An image is its inode table; of an inode's blocks only directory entries matter here.  The
    tests of block addresses and of the bitmap come between these and can only reject more. */
module Checker {

  const ROOTINO := 1
  const T_DIR := 1
  const T_FILE := 2
  const T_DEV := 3

  datatype Entry = Entry(inum: nat, name: string)

  /** The blocks of entries reached by the direct addresses and by the indirect block, those
      with address 0 left out. */
  datatype DiskInode = DiskInode(typ: int, nlink: int, direct: seq<seq<Entry>>, indirect: seq<seq<Entry>>)

  type Image = seq<DiskInode>

  /** Entry `e` in directory `from`. */
  datatype Ref = Ref(from: nat, e: Entry)

  function Flat(blocks: seq<seq<Entry>>): seq<Entry> {
    if blocks == [] then [] else Flat(blocks[..|blocks| - 1]) + blocks[|blocks| - 1]
  }

  predicate AllInRange(es: seq<Entry>, n: nat) {
    forall k :: 0 <= k < |es| ==> es[k].inum < n
  }

  /** Inode numbers stay inside the checker's arrays, and inode 0 is free. */
  predicate InRange(img: Image) {
    && |img| > ROOTINO && img[0].typ == 0
    && forall i :: 0 <= i < |img| ==> AllInRange(Flat(img[i].direct), |img|) && AllInRange(Flat(img[i].indirect), |img|)
  }

  predicate IsDir(img: Image, i: int) {
    0 <= i < |img| && img[i].typ == T_DIR
  }

  predicate IsDot(name: string) {
    name == "." || name == ".."
  }

  // ----- what the arrays hold

  /** The entries that the checker counts: those in use in direct blocks, all in indirect ones. */
  function Used(es: seq<Entry>): seq<Entry> {
    if es == [] then []
    else Used(es[..|es| - 1]) + if es[|es| - 1].inum != 0 then [es[|es| - 1]] else []
  }

  function Refs(from: nat, es: seq<Entry>): (rs: seq<Ref>)
    ensures |rs| == |es| && forall k :: 0 <= k < |es| ==> rs[k] == Ref(from, es[k])
  {
    seq(|es|, k requires 0 <= k < |es| => Ref(from, es[k]))
  }

  function DirRefs(img: Image, i: nat): seq<Ref>
    requires i < |img|
  {
    if IsDir(img, i) then Refs(i, Used(Flat(img[i].direct))) + Refs(i, Flat(img[i].indirect)) else []
  }

  /** The entries of the first `n` inodes. */
  function AllRefs(img: Image, n: nat): seq<Ref>
    requires n <= |img|
  {
    if n == 0 then [] else AllRefs(img, n - 1) + DirRefs(img, n - 1)
  }

  /** An entry that makes a directory the child of another. */
  predicate IsChild(img: Image, r: Ref, j: int) {
    r.e.inum == j && IsDir(img, j) && !IsDot(r.e.name)
  }

  function CountRefs(rs: seq<Ref>, j: int): nat {
    if rs == [] then 0 else CountRefs(rs[..|rs| - 1], j) + if rs[|rs| - 1].e.inum == j then 1 else 0
  }

  function CountChild(img: Image, rs: seq<Ref>, j: int): nat {
    if rs == [] then 0 else CountChild(img, rs[..|rs| - 1], j) + if IsChild(img, rs[|rs| - 1], j) then 1 else 0
  }

  /** The last ".." among some entries, 0 if there is none. */
  function LastParent(es: seq<Entry>): nat {
    if es == [] then 0
    else if es[|es| - 1].name == ".." then es[|es| - 1].inum
    else LastParent(es[..|es| - 1])
  }

  function ParentOf(img: Image, i: int): nat {
    if IsDir(img, i) then LastParent(Used(Flat(img[i].direct))) else 0
  }

  // ----- what is accepted

  predicate TypesOk(img: Image) {
    forall i :: 0 <= i < |img| ==> img[i].typ in {0, T_DIR, T_FILE, T_DEV}
  }

  /** The first ".." of each of the root's direct blocks, if any, names the root. */
  predicate FirstParentIsRoot(es: seq<Entry>) {
    forall k :: 0 <= k < |es| && es[k].name == ".." && (forall m :: 0 <= m < k ==> es[m].name != "..") ==>
        es[k].inum == ROOTINO
  }

  predicate RootOk(img: Image) {
    IsDir(img, ROOTINO) && forall k :: 0 <= k < |img[ROOTINO].direct| ==> FirstParentIsRoot(img[ROOTINO].direct[k])
  }

  predicate Names(es: seq<Entry>, name: string) {
    exists k :: 0 <= k < |es| && es[k].name == name
  }

  /** "." names the directory itself, and the first block has both "." and "..". */
  predicate FormatOk(img: Image, i: nat)
    requires i < |img|
  {
    && (forall k :: 0 <= k < |Used(Flat(img[i].direct))| && Used(Flat(img[i].direct))[k].name == "." ==>
          Used(Flat(img[i].direct))[k].inum == i)
    && (img[i].direct != [] ==> Names(Used(img[i].direct[0]), ".") && Names(Used(img[i].direct[0]), ".."))
  }

  ghost predicate FormatsOk(img: Image) {
    forall i :: IsDir(img, i) ==> FormatOk(img, i)
  }

  predicate CountOk(img: Image, rs: seq<Ref>, i: nat)
    requires i < |img|
  {
    && (img[i].typ != 0 ==> CountRefs(rs, i) >= 1)
    && (CountRefs(rs, i) != 0 && i != 0 ==> img[i].typ != 0)
    && (img[i].typ == T_FILE ==> img[i].nlink == CountRefs(rs, i))
    && (img[i].typ == T_DIR ==> CountChild(img, rs, i) == if i == ROOTINO then 0 else 1)
  }

  predicate CountsOk(img: Image, rs: seq<Ref>) {
    forall i :: 0 <= i < |img| ==> CountOk(img, rs, i)
  }

  ghost predicate ParentsOk(img: Image, rs: seq<Ref>) {
    forall k, j :: 0 <= k < |rs| && IsChild(img, rs[k], j) ==> ParentOf(img, j) == rs[k].from
  }

  // ----- walking up

  /** Parents, one for each inode. */
  predicate Parents(p: seq<nat>) {
    forall x :: 0 <= x < |p| ==> p[x] < |p|
  }

  function Up(p: seq<nat>, i: nat, k: nat): (x: nat)
    requires Parents(p) && i < |p|
    ensures x < |p|
  {
    if k == 0 then i else p[Up(p, i, k - 1)]
  }

  /** The walk from `i` goes on for more than `k` steps: it has not come to a child of the root. */
  predicate GoesOn(p: seq<nat>, i: nat, k: nat)
    requires Parents(p) && i < |p|
  {
    forall m :: 0 <= m <= k ==> p[Up(p, i, m)] != ROOTINO
  }

  /** The walk from `i` passes, and marks, inode `x`. */
  ghost predicate Visits(p: seq<nat>, i: nat, x: nat)
    requires Parents(p) && i < |p|
  {
    exists k: nat :: GoesOn(p, i, k) && Up(p, i, k) == x
  }

  ghost predicate Reaches(p: seq<nat>, i: nat)
    requires Parents(p) && i < |p|
  {
    exists k: nat :: p[Up(p, i, k)] == ROOTINO
  }

  /** An earlier directory's walk passes `x`. */
  ghost predicate Marked(p: seq<nat>, dirs: seq<bool>, i: nat, x: nat)
    requires Parents(p) && i <= |p| == |dirs|
  {
    exists d: nat :: d < i && dirs[d] && Visits(p, d, x)
  }

  /** Directory `i` passes: an earlier walk came by, or its own walk ends and meets none. */
  ghost predicate WalkOk(p: seq<nat>, dirs: seq<bool>, i: nat)
    requires Parents(p) && i < |p| == |dirs|
  {
    Marked(p, dirs, i, i) || (Reaches(p, i) && forall x :: Visits(p, i, x) ==> !Marked(p, dirs, i, x))
  }

  ghost predicate WalksOk(p: seq<nat>, dirs: seq<bool>)
    requires Parents(p) && |p| == |dirs|
  {
    forall i :: 0 <= i < |p| && dirs[i] ==> WalkOk(p, dirs, i)
  }

  lemma {:induction false} UpAdd(p: seq<nat>, i: nat, k: nat, m: nat)
    requires Parents(p) && i < |p|
    ensures Up(p, Up(p, i, k), m) == Up(p, i, k + m)
  {
    if m > 0 {
      UpAdd(p, i, k, m - 1);
    }
  }

  /** A walk that passes `i` passes whatever the walk from `i` passes. */
  lemma VisitsOn(p: seq<nat>, d: nat, i: nat, x: nat)
    requires Parents(p) && d < |p| && Visits(p, d, i) && i < |p| && Visits(p, i, x)
    ensures Visits(p, d, x)
  {
    var k: nat :| GoesOn(p, d, k) && Up(p, d, k) == i;
    var m: nat :| GoesOn(p, i, m) && Up(p, i, m) == x;
    UpAdd(p, d, k, m);
    forall j | 0 <= j <= k + m
      ensures p[Up(p, d, j)] != ROOTINO
    {
      if j > k {
        UpAdd(p, d, k, j - k);
      }
    }
    assert GoesOn(p, d, k + m);
  }

  /** A walk that comes back to where it was does not end. */
  lemma {:induction false} CycleNeverEnds(p: seq<nat>, i: nat, a: nat, b: nat, k: nat)
    requires Parents(p) && i < |p| && a < b && GoesOn(p, i, b) && Up(p, i, a) == Up(p, i, b)
    ensures exists m :: 0 <= m < b && Up(p, i, k) == Up(p, i, m)
    ensures p[Up(p, i, k)] != ROOTINO
  {
    if k == 0 {
      assert Up(p, i, k) == Up(p, i, 0);
    } else {
      CycleNeverEnds(p, i, a, b, k - 1);
      var m :| 0 <= m < b && Up(p, i, k - 1) == Up(p, i, m);
      assert Up(p, i, k) == Up(p, i, m + 1);
      if m + 1 == b {
        assert Up(p, i, k) == Up(p, i, a);
      }
    }
  }

  /** Where a walk that ends has come to the root. */
  lemma EndsAtRoot(p: seq<nat>, i: nat)
    requires Parents(p) && i < |p| && Reaches(p, i)
    ensures exists k: nat :: k > 0 && Up(p, i, k) == ROOTINO
  {
    var k: nat :| p[Up(p, i, k)] == ROOTINO;
    assert Up(p, i, k + 1) == ROOTINO;
  }

  /** The walk from an inode on a walk that ends also ends. */
  lemma ReachesOn(p: seq<nat>, d: nat, i: nat)
    requires Parents(p) && d < |p| && i < |p| && Visits(p, d, i) && Reaches(p, d)
    ensures Reaches(p, i)
  {
    var k: nat :| GoesOn(p, d, k) && Up(p, d, k) == i;
    var e: nat :| p[Up(p, d, e)] == ROOTINO;
    UpAdd(p, d, k, e - k);
    assert p[Up(p, i, e - k)] == ROOTINO;
  }

  /** Every directory's walk ends when all directories pass. */
  lemma {:induction false} AllReach(p: seq<nat>, dirs: seq<bool>, i: nat)
    requires Parents(p) && |p| == |dirs| && WalksOk(p, dirs) && i < |p| && dirs[i]
    ensures Reaches(p, i)
    decreases i
  {
    if Marked(p, dirs, i, i) {
      var d: nat :| d < i && dirs[d] && Visits(p, d, i);
      AllReach(p, dirs, d);
      ReachesOn(p, d, i);
    }
  }

  // ----- the checker

  /** How many inodes the walks have not marked. */
  ghost function Unmarked(marks: seq<nat>): (n: nat)
    ensures n <= |marks|
  {
    if marks == [] then 0 else Unmarked(marks[..|marks| - 1]) + if marks[|marks| - 1] == 0 then 1 else 0
  }

  lemma {:induction false} MarkOne(marks: seq<nat>, x: nat)
    requires x < |marks| && marks[x] == 0
    ensures Unmarked(marks[x := 1]) == Unmarked(marks) - 1
  {
    var n := |marks| - 1;
    if x == n {
      assert marks[x := 1][..n] == marks[..n];
    } else {
      assert marks[x := 1][..n] == marks[..n][x := 1];
      MarkOne(marks[..n], x);
    }
  }

  /** One of the first `k` inodes of the walk from `i` is `x`. */
  ghost predicate Walked(p: seq<nat>, i: nat, k: nat, x: nat)
    requires Parents(p) && i < |p|
  {
    exists m: nat :: m < k && Up(p, i, m) == x
  }

  /** The marks that stand when the walk from `i` has passed its first `k` inodes. */
  ghost predicate MarksAre(p: seq<nat>, dirs: seq<bool>, marks: seq<nat>, i: nat, k: nat)
    requires Parents(p) && i < |p| == |dirs| == |marks|
  {
    forall x :: 0 <= x < |p| ==>
      && marks[x] <= 1
      && (marks[x] == 1 <==> Marked(p, dirs, i, x) || Walked(p, i, k, x))
  }

  /** Nothing more is marked once the walk from directory `i` has ended, or was skipped. */
  lemma MarksDone(p: seq<nat>, dirs: seq<bool>, marks: seq<nat>, i: nat, k: nat)
    requires Parents(p) && i < |p| == |dirs| == |marks| && MarksAre(p, dirs, marks, i, k)
    requires (!dirs[i] && k == 0) || (dirs[i] && k == 0 && Marked(p, dirs, i, i)) ||
             (dirs[i] && p[Up(p, i, k)] == ROOTINO && (k > 0 ==> GoesOn(p, i, k - 1)))
    ensures MarksBefore(p, dirs, marks, i + 1)
  {
    forall x | 0 <= x < |p|
      ensures Marked(p, dirs, i + 1, x) <==> Marked(p, dirs, i, x) || Walked(p, i, k, x)
    {
      MarksGrow(p, dirs, i, x);
      if dirs[i] {
        if Walked(p, i, k, x) {
          var m: nat :| m < k && Up(p, i, m) == x;
          assert GoesOn(p, i, m);
          assert Visits(p, i, x);
        }
        if Visits(p, i, x) && !Marked(p, dirs, i, x) {
          if Marked(p, dirs, i, i) {
            var c: nat :| c < i && dirs[c] && Visits(p, c, i);
            VisitsOn(p, c, i, x);
          } else {
            var m: nat :| GoesOn(p, i, m) && Up(p, i, m) == x;
            assert m < k;
          }
        }
      }
    }
  }

  lemma MarksGrow(p: seq<nat>, dirs: seq<bool>, i: nat, x: nat)
    requires Parents(p) && i < |p| == |dirs|
    ensures Marked(p, dirs, i + 1, x) <==> Marked(p, dirs, i, x) || (dirs[i] && Visits(p, i, x))
  {
  }

  /** A walk that meets a mark fails its directory, whether the mark is another walk's or its own. */
  lemma MeetsMark(p: seq<nat>, dirs: seq<bool>, marks: seq<nat>, i: nat, k: nat)
    requires Parents(p) && i < |p| == |dirs| == |marks| && MarksAre(p, dirs, marks, i, k)
    requires !Marked(p, dirs, i, i) && GoesOn(p, i, k) && marks[Up(p, i, k)] != 0
    ensures !WalkOk(p, dirs, i)
  {
    var x := Up(p, i, k);
    assert Visits(p, i, x);
    if !Marked(p, dirs, i, x) {
      var m: nat :| m < k && Up(p, i, m) == x;
      forall e: nat
        ensures p[Up(p, i, e)] != ROOTINO
      {
        CycleNeverEnds(p, i, m, k, e);
      }
    }
  }

  /** No other walk came by the first `k` inodes of the walk from `i`. */
  ghost predicate MetNone(p: seq<nat>, dirs: seq<bool>, i: nat, k: nat)
    requires Parents(p) && i < |p| == |dirs|
  {
    forall m :: 0 <= m < k ==> !Marked(p, dirs, i, Up(p, i, m))
  }

  /** A walk that ends without meeting a mark passes its directory. */
  lemma MeetsNone(p: seq<nat>, dirs: seq<bool>, marks: seq<nat>, i: nat, k: nat)
    requires Parents(p) && i < |p| == |dirs| == |marks|
    requires p[Up(p, i, k)] == ROOTINO && MetNone(p, dirs, i, k)
    ensures WalkOk(p, dirs, i)
  {
  }

  /** The marks that stand before directory `i` has its turn. */
  ghost predicate MarksBefore(p: seq<nat>, dirs: seq<bool>, marks: seq<nat>, i: nat)
    requires Parents(p) && i <= |p| == |dirs| == |marks|
  {
    forall x :: 0 <= x < |p| ==> marks[x] <= 1 && (marks[x] == 1 <==> Marked(p, dirs, i, x))
  }

  lemma WalkStarts(p: seq<nat>, dirs: seq<bool>, marks: seq<nat>, i: nat)
    requires Parents(p) && i < |p| == |dirs| == |marks| && MarksBefore(p, dirs, marks, i)
    ensures MarksAre(p, dirs, marks, i, 0) && MetNone(p, dirs, i, 0) && Up(p, i, 0) == i
    ensures marks[i] != 1 ==> !Marked(p, dirs, i, i)
  {
  }

  lemma GoesNext(p: seq<nat>, i: nat, k: nat)
    requires Parents(p) && i < |p| && (k > 0 ==> GoesOn(p, i, k - 1)) && p[Up(p, i, k)] != ROOTINO
    ensures GoesOn(p, i, k) && Up(p, i, k + 1) == p[Up(p, i, k)]
  {
  }

  lemma MarksSmall(p: seq<nat>, dirs: seq<bool>, marks: seq<nat>, i: nat, k: nat)
    requires Parents(p) && i < |p| == |dirs| == |marks| && MarksAre(p, dirs, marks, i, k)
    ensures forall x :: 0 <= x < |marks| ==> marks[x] <= 1
  {
  }

  /** The inner loop: follow ".." from directory `i` until the parent is the root. */
  method WalkUp(parentinum: array<nat>, ghost dirs: seq<bool>, loopdetect: array<nat>, i: nat) returns (ok: bool)
    requires parentinum.Length == |dirs| == loopdetect.Length && loopdetect != parentinum
    requires Parents(parentinum[..]) && i < |dirs| && dirs[i] && loopdetect[i] != 1
    requires MarksBefore(parentinum[..], dirs, loopdetect[..], i)
    modifies loopdetect
    ensures ok <==> WalkOk(parentinum[..], dirs, i)
    ensures ok ==> MarksBefore(parentinum[..], dirs, loopdetect[..], i + 1)
    ensures forall x :: 0 <= x < loopdetect.Length ==> loopdetect[x] <= 1
  {
    hide MarksAre, MarksBefore, Marked, MetNone, WalkOk, GoesOn, Unmarked, Parents, Up;
    ghost var p := parentinum[..];
    var currentde := i;
    ghost var k: nat := 0;
    WalkStarts(p, dirs, loopdetect[..], i);
    while parentinum[currentde] != ROOTINO
      invariant 0 <= currentde < |p| && currentde == Up(p, i, k)
      invariant k > 0 ==> GoesOn(p, i, k - 1)
      invariant MarksAre(p, dirs, loopdetect[..], i, k)
      invariant MetNone(p, dirs, i, k)
      decreases Unmarked(loopdetect[..])
    {
      GoesNext(p, i, k);
      ghost var before := loopdetect[..];
      if loopdetect[currentde] != 0 {
        MeetsMark(p, dirs, before, i, k);
        MarksSmall(p, dirs, before, i, k);
        return false;
      }
      MarkOne(before, currentde);
      loopdetect[currentde] := loopdetect[currentde] + 1;
      assert loopdetect[..] == before[currentde := 1];
      MarkNext(p, dirs, before, i, k);
      currentde := parentinum[currentde];
      k := k + 1;
    }
    MeetsNone(p, dirs, loopdetect[..], i, k);
    MarksDone(p, dirs, loopdetect[..], i, k);
    MarksSmall(p, dirs, loopdetect[..], i, k);
    return true;
  }

  lemma MarkNext(p: seq<nat>, dirs: seq<bool>, marks: seq<nat>, i: nat, k: nat)
    requires Parents(p) && i < |p| == |dirs| == |marks| && MarksAre(p, dirs, marks, i, k) && marks[Up(p, i, k)] == 0
    ensures MarksAre(p, dirs, marks[Up(p, i, k) := 1], i, k + 1)
    ensures MetNone(p, dirs, i, k) ==> MetNone(p, dirs, i, k + 1)
  {
  }

  /** The last loop: every directory has its turn. */
  method DetectLoops(parentinum: array<nat>, dirarr: array<bool>, loopdetect: array<nat>) returns (ok: bool)
    requires parentinum.Length == dirarr.Length == loopdetect.Length && loopdetect != parentinum
    requires Parents(parentinum[..]) && forall x :: 0 <= x < loopdetect.Length ==> loopdetect[x] == 0
    modifies loopdetect
    ensures ok <==> WalksOk(parentinum[..], dirarr[..])
    ensures forall x :: 0 <= x < loopdetect.Length ==> loopdetect[x] <= 1
  {
    ghost var p, dirs := parentinum[..], dirarr[..];
    var i := 0;
    while i < dirarr.Length
      invariant 0 <= i <= dirarr.Length && MarksBefore(p, dirs, loopdetect[..], i)
      invariant forall d :: 0 <= d < i && dirs[d] ==> WalkOk(p, dirs, d)
    {
      if dirarr[i] && loopdetect[i] != 1 {
        var ends := WalkUp(parentinum, dirs, loopdetect, i);
        if !ends {
          return false;
        }
      } else {
        assert dirs[i] ==> loopdetect[..][i] == 1 && Marked(p, dirs, i, i);
        MarksDone(p, dirs, loopdetect[..], i, 0);
      }
      i := i + 1;
    }
    return true;
  }

  // ----- reading the entries

  lemma {:induction false} UsedAppend(a: seq<Entry>, b: seq<Entry>)
    ensures Used(a + b) == Used(a) + Used(b)
  {
    if b == [] {
      assert a + b == a;
    } else {
      var n := |b| - 1;
      assert (a + b)[..|a + b| - 1] == a + b[..n];
      UsedAppend(a, b[..n]);
    }
  }

  lemma UsedNext(a: seq<Entry>, e: Entry)
    ensures Used(a + [e]) == Used(a) + if e.inum != 0 then [e] else []
    ensures LastParent(Used(a + [e])) == if e.inum != 0 && e.name == ".." then e.inum else LastParent(Used(a))
    ensures forall name :: Names(Used(a + [e]), name) <==> Names(Used(a), name) || (e.inum != 0 && e.name == name)
  {
    assert (a + [e])[..|a|] == a;
    var u := Used(a);
    assert u + [] == u;
    if e.inum != 0 {
      assert Used(a + [e]) == u + [e] && (u + [e])[..|u|] == u;
      forall name
        ensures Names(u + [e], name) <==> Names(u, name) || e.name == name
      {
        NamesNext(u, e, name);
      }
    }
  }

  lemma NamesNext(u: seq<Entry>, e: Entry, name: string)
    ensures Names(u + [e], name) <==> Names(u, name) || e.name == name
  {
    if Names(u, name) {
      var k :| 0 <= k < |u| && u[k].name == name;
      assert (u + [e])[k].name == name;
    }
    if e.name == name {
      assert (u + [e])[|u|].name == name;
    }
    if Names(u + [e], name) && e.name != name {
      var k :| 0 <= k < |u + [e]| && (u + [e])[k].name == name;
      assert u[k].name == name;
    }
  }

  lemma RefsOne(i: nat, a: seq<Entry>, e: Entry)
    ensures Refs(i, a + [e]) == Refs(i, a) + [Ref(i, e)]
  {
  }

  lemma ScanBegins(i: nat, blocks: seq<seq<Entry>>)
    ensures Refs(i, UpTo(blocks, 0, 0)) == []
  {
  }

  /** The entries up to entry `e` of block `k`. */
  function UpTo(blocks: seq<seq<Entry>>, k: nat, e: nat): seq<Entry>
    requires k <= |blocks| && (k < |blocks| ==> e <= |blocks[k]|) && (k == |blocks| ==> e == 0)
  {
    Flat(blocks[..k]) + if k < |blocks| then blocks[k][..e] else []
  }

  lemma {:induction false} FlatGrows(blocks: seq<seq<Entry>>, k: nat)
    requires k <= |blocks|
    ensures Flat(blocks[..k]) <= Flat(blocks)
  {
    if k == |blocks| {
      assert blocks[..k] == blocks;
    } else {
      FlatGrows(blocks[..|blocks| - 1], k);
      assert blocks[..|blocks| - 1][..k] == blocks[..k];
    }
  }

  lemma UpToNext(blocks: seq<seq<Entry>>, k: nat, e: nat)
    requires k < |blocks| && e < |blocks[k]|
    ensures UpTo(blocks, k, e + 1) == UpTo(blocks, k, e) + [blocks[k][e]]
  {
  }

  lemma UpToIsPrefix(blocks: seq<seq<Entry>>, k: nat, e: nat)
    requires k < |blocks| && e <= |blocks[k]|
    ensures UpTo(blocks, k, e) <= Flat(blocks)
  {
    FlatGrows(blocks, k + 1);
    assert blocks[..k + 1][..k] == blocks[..k];
    assert Flat(blocks[..k + 1]) == Flat(blocks[..k]) + blocks[k];
    hide Flat;
    assert UpTo(blocks, k, e) <= Flat(blocks[..k + 1]);
  }

  /** One entry further, and what is still to come. */
  lemma NextEntry(blocks: seq<seq<Entry>>, k: nat, e: nat, n: nat)
    requires k < |blocks| && e < |blocks[k]| && AllInRange(Flat(blocks), n)
    ensures UpTo(blocks, k, e + 1) == UpTo(blocks, k, e) + [blocks[k][e]]
    ensures UpTo(blocks, k, e + 1) <= Flat(blocks) && blocks[k][e].inum < n
    ensures Used(UpTo(blocks, k, e + 1)) <= Used(Flat(blocks))
  {
    UpToNext(blocks, k, e);
    UpToIsPrefix(blocks, k, e + 1);
    hide UpTo, Flat, Used;
    var done := UpTo(blocks, k, e + 1);
    assert Flat(blocks)[|done| - 1] == blocks[k][e];
    var rest := Flat(blocks)[|done|..];
    assert done + rest == Flat(blocks);
    UsedAppend(done, rest);
  }

  lemma NextBlock(blocks: seq<seq<Entry>>, k: nat)
    requires k < |blocks|
    ensures UpTo(blocks, k, |blocks[k]|) == UpTo(blocks, k + 1, 0) == Flat(blocks[..k + 1])
    ensures k + 1 == |blocks| ==> UpTo(blocks, k + 1, 0) == Flat(blocks)
    ensures k == 0 ==> Flat(blocks[..k + 1]) == blocks[0]
  {
    assert blocks[..k + 1][..k] == blocks[..k];
    assert k + 1 == |blocks| ==> blocks[..k + 1] == blocks;
    assert k == 0 ==> blocks[..0] == [];
  }

  lemma NextBlockAll(blocks: seq<seq<Entry>>)
    ensures UpTo(blocks, |blocks|, 0) == Flat(blocks)
  {
    assert blocks[..|blocks|] == blocks;
  }

  ghost predicate HasChild(img: Image, rs: seq<Ref>, i: int, j: int) {
    exists k :: 0 <= k < |rs| && rs[k].from == i && IsChild(img, rs[k], j)
  }

  lemma HasChildNext(img: Image, rs: seq<Ref>, r: Ref, i: int, j: int)
    ensures HasChild(img, rs + [r], i, j) <==> HasChild(img, rs, i, j) || (r.from == i && IsChild(img, r, j))
  {
    if HasChild(img, rs, i, j) {
      var k :| 0 <= k < |rs| && rs[k].from == i && IsChild(img, rs[k], j);
      assert (rs + [r])[k] == rs[k];
    }
    if r.from == i && IsChild(img, r, j) {
      assert (rs + [r])[|rs|] == r;
    }
    if HasChild(img, rs + [r], i, j) && !(r.from == i && IsChild(img, r, j)) {
      var k :| 0 <= k < |rs + [r]| && (rs + [r])[k].from == i && IsChild(img, (rs + [r])[k], j);
      assert rs[k] == (rs + [r])[k];
    }
  }

  /** What the pass over all inodes asks of inode `i`. */
  ghost predicate InodeOk(img: Image, i: nat)
    requires i < |img|
  {
    && img[i].typ in {0, T_DIR, T_FILE, T_DEV}
    && (i == ROOTINO ==> RootOk(img))
    && (IsDir(img, i) ==> FormatOk(img, i))
  }

  lemma AllInodes(img: Image)
    requires |img| > ROOTINO
    ensures (forall i :: 0 <= i < |img| ==> InodeOk(img, i)) <==> TypesOk(img) && RootOk(img) && FormatsOk(img)
  {
    if forall i :: 0 <= i < |img| ==> InodeOk(img, i) {
      assert InodeOk(img, ROOTINO);
      forall i | 0 <= i < |img|
        ensures img[i].typ in {0, T_DIR, T_FILE, T_DEV} && (IsDir(img, i) ==> FormatOk(img, i))
      {
        assert InodeOk(img, i);
      }
    }
  }

  lemma RefsAfter(img: Image, i: nat)
    requires i < |img|
    ensures IsDir(img, i) ==>
              AllRefs(img, i + 1) ==
                  AllRefs(img, i) + Refs(i, Used(Flat(img[i].direct))) + Refs(i, Flat(img[i].indirect))
    ensures !IsDir(img, i) ==> AllRefs(img, i + 1) == AllRefs(img, i)
  {
    hide Used, Flat, Refs;
  }

  /** Where the scan of the direct blocks of `i` stands, when the entries `u` in use have been read. */
  ghost predicate ScanAt(img: Image, i: nat, u: seq<Entry>, findroot: bool, findcur: bool,
                         seen: seq<Ref>, before: seq<Ref>, parents: seq<nat>)
  {
    && i < |img| == |parents|
    && seen == before + Refs(i, u)
    && findroot == Names(u, "..") && findcur == Names(u, ".")
    && (forall m :: 0 <= m < |u| && u[m].name == "." ==> u[m].inum == i)
    && (forall j :: 0 <= j < |img| ==>
       parents[j] == if j < i then ParentOf(img, j) else if j == i then LastParent(u) else 0)
  }

  lemma ScanNext(img: Image, i: nat, u: seq<Entry>, findroot: bool, findcur: bool,
                 seen: seq<Ref>, before: seq<Ref>, parents: seq<nat>, e: Entry)
    requires ScanAt(img, i, u, findroot, findcur, seen, before, parents) && (e.name == "." ==> e.inum == i)
    ensures ScanAt(img, i, u + [e], findroot || e.name == "..", findcur || e.name == ".", seen + [Ref(i, e)], before,
                   if e.name == ".." then parents[i := e.inum] else parents)
  {
    RefsOne(i, u, e);
    assert before + (Refs(i, u) + [Ref(i, e)]) == before + Refs(i, u) + [Ref(i, e)];
    assert (u + [e])[..|u|] == u;
    NamesNext(u, e, ".");
    NamesNext(u, e, "..");
    assert LastParent(u + [e]) == if e.name == ".." then e.inum else LastParent(u);
    hide Names, Refs, LastParent, ParentOf, IsDir;
  }

  class Checker {
    const img: Image
    const dirarr: array<bool>
    const inoderefer: array<nat>
    const dirreference: array<nat>
    const parentinum: array<nat>
    const childentry: array2<bool>
    const loopdetect: array<nat>
    ghost var seen: seq<Ref>          // the entries counted so far

    ghost predicate Shaped() {
      && InRange(img)
      && dirarr.Length == inoderefer.Length == dirreference.Length == parentinum.Length == loopdetect.Length == |img|
      && childentry.Length0 == childentry.Length1 == |img|
      && inoderefer != dirreference && inoderefer != parentinum && inoderefer != loopdetect
      && dirreference != parentinum && dirreference != loopdetect && parentinum != loopdetect
    }

    /** The arrays tell what has been counted. */
    ghost predicate Counted()
      requires Shaped()
      reads this`seen, dirarr, inoderefer, dirreference, childentry
    {
      && (forall j :: 0 <= j < |img| ==> dirarr[j] == IsDir(img, j))
      && (forall j :: 0 <= j < |img| ==> inoderefer[j] == CountRefs(seen, j))
      && (forall j :: 0 <= j < |img| ==> dirreference[j] == CountChild(img, seen, j))
      && (forall i, j :: 0 <= i < |img| && 0 <= j < |img| ==> childentry[i, j] == HasChild(img, seen, i, j))
    }

    /** The entries of the first `n` inodes have been counted. */
    ghost predicate SeenAre(n: nat)
      reads this`seen
    {
      n <= |img| && seen == AllRefs(img, n)
    }

    ghost predicate ParentsAre(n: int)
      requires Shaped()
      reads parentinum
    {
      forall j :: 0 <= j < |img| ==> parentinum[j] == if j < n then ParentOf(img, j) else 0
    }

    /** Where the scan of the direct blocks of `i` stands. */
    ghost predicate ScanIs(i: nat, blocks: seq<seq<Entry>>, k: nat, e: nat, findroot: bool, findcur: bool,
        before: seq<Ref>)
      requires Shaped() && i < |img|
      reads this`seen, parentinum
    {
      && k <= |blocks| && (k < |blocks| ==> e <= |blocks[k]|) && (k == |blocks| ==> e == 0)
      && ScanAt(img, i, Used(UpTo(blocks, k, e)), findroot, findcur, seen, before, parentinum[..])
    }

    /** The arrays before the first pass, and the pass that records the directories. */
    constructor (image: Image)
      requires InRange(image)
      ensures img == image && Shaped() && Counted() && seen == [] && ParentsAre(0)
      ensures forall x :: 0 <= x < |img| ==> loopdetect[x] == 0
      ensures fresh(dirarr) && fresh(inoderefer) && fresh(dirreference) && fresh(parentinum) && fresh(childentry)
          && fresh(loopdetect)
    {
      img := image;
      dirarr := new bool[|image|](i requires 0 <= i < |image| => image[i].typ == T_DIR);
      inoderefer := new nat[|image|](_ => 0);
      dirreference := new nat[|image|](_ => 0);
      parentinum := new nat[|image|](_ => 0);
      childentry := new bool[|image|, |image|]((_, _) => false);
      loopdetect := new nat[|image|](_ => 0);
      seen := [];
    }

    /** Counts entry `e` of directory `i`. */
    method CountEntry(i: nat, e: Entry)
      requires Shaped() && Counted() && i < |img| && e.inum < |img|
      modifies `seen, inoderefer, dirreference, childentry
      ensures Counted() && seen == old(seen) + [Ref(i, e)]
    {
      ghost var r := Ref(i, e);
      forall a, b | 0 <= a < |img| && 0 <= b < |img|
        ensures HasChild(img, seen + [r], a, b) <==> HasChild(img, seen, a, b) || (a == i && IsChild(img, r, b))
      {
        HasChildNext(img, seen, r, a, b);
      }
      assert (seen + [r])[..|seen|] == seen;
      inoderefer[e.inum] := inoderefer[e.inum] + 1;
      if dirarr[e.inum] && e.name != ".." && e.name != "." {
        dirreference[e.inum] := dirreference[e.inum] + 1;
        childentry[i, e.inum] := true;
      }
      seen := seen + [r];
    }

    /** Entry `e` of direct block `k` of directory `i`: one turn of the innermost loop. */
    method ScanEntry(i: nat, k: nat, e: nat, root: bool, cur: bool, ghost before: seq<Ref>)
      returns (ok: bool, findroot: bool, findcur: bool)
      requires Shaped() && Counted() && IsDir(img, i) && k < |img[i].direct| && e < |img[i].direct[k]|
      requires ScanIs(i, img[i].direct, k, e, root, cur, before)
      modifies `seen, inoderefer, dirreference, childentry, parentinum
      ensures ok ==> Counted() && ScanIs(i, img[i].direct, k, e + 1, findroot, findcur, before)
      ensures ok ==> (root ==> findroot) && (cur ==> findcur)
      ensures !ok ==> !FormatOk(img, i)
    {
      ghost var blocks := img[i].direct;
      ghost var done := UpTo(blocks, k, e);
      NextEntry(blocks, k, e, |img|);
      UsedNext(done, img[i].direct[k][e]);
      hide UpTo, Used, Flat, Counted, ScanAt, Names, Refs;
      findroot, findcur := root, cur;
      var dir := img[i].direct[k][e];
      assert Used(done) + [] == Used(done);
      if dir.inum != 0 {
        if dir.name == "." && i != dir.inum {
          WrongDot(i, Used(done), dir);
        } else {
          ScanNext(img, i, Used(done), root, cur, seen, before, parentinum[..], dir);
        }
        if dir.name == ".." {
          parentinum[i] := dir.inum;
          assert parentinum[..] == old(parentinum[..])[i := dir.inum];
          findroot := true;
        }
        if dir.name == "." {
          if i != dir.inum {
            return false, findroot, findcur;
          }
          findcur := true;
        }
        CountEntry(i, dir);
      }
      ok := true;
    }

    lemma WrongDot(i: nat, u: seq<Entry>, e: Entry)
      requires Shaped() && IsDir(img, i) && u + [e] <= Used(Flat(img[i].direct)) && e.name == "." && e.inum != i
      ensures !FormatOk(img, i)
    {
      assert Used(Flat(img[i].direct))[|u|] == e;
    }

    /** Direct block `k` of directory `i`. */
    method ScanBlock(i: nat, k: nat, root: bool, cur: bool, ghost before: seq<Ref>)
      returns (ok: bool, findroot: bool, findcur: bool)
      requires Shaped() && Counted() && IsDir(img, i) && k < |img[i].direct|
      requires ScanIs(i, img[i].direct, k, 0, root, cur, before) && (k > 0 ==> root && cur)
      modifies `seen, inoderefer, dirreference, childentry, parentinum
      ensures ok ==> Counted() && ScanIs(i, img[i].direct, k + 1, 0, findroot, findcur, before)
      ensures ok ==> findroot && findcur
      ensures ok && k == 0 ==> Names(Used(img[i].direct[0]), ".") && Names(Used(img[i].direct[0]), "..")
      ensures !ok ==> !FormatOk(img, i)
    {
      hide Shaped, InRange, Counted, ScanIs, UpTo, Used, Flat, FormatOk, Names, Refs;
      findroot, findcur := root, cur;
      var e := 0;
      while e < |img[i].direct[k]|
        invariant 0 <= e <= |img[i].direct[k]| && Counted()
        invariant ScanIs(i, img[i].direct, k, e, findroot, findcur, before)
        invariant k > 0 ==> findroot && findcur
      {
        ok, findroot, findcur := ScanEntry(i, k, e, findroot, findcur, before);
        if !ok {
          return;
        }
        e := e + 1;
      }
      ScanBlockEnds(i, img[i].direct, k, findroot, findcur, before);
      ok := findroot && findcur;
    }

    /** The entries in the direct blocks of directory `i`. */
    method ScanDirect(i: nat) returns (ok: bool)
      requires Shaped() && Counted() && IsDir(img, i) && ParentsAre(i)
      modifies `seen, inoderefer, dirreference, childentry, parentinum
      ensures ok <==> FormatOk(img, i)
      ensures ok ==> Counted() && ParentsAre(i + 1) && seen == old(seen) + Refs(i, Used(Flat(img[i].direct)))
    {
      ScanStarts(i);
      hide Shaped, InRange, Counted, ScanIs, Used, Flat, FormatOk, ParentsAre, Names, Refs;
      var findroot, findcur := false, false;
      var k := 0;
      while k < |img[i].direct|
        invariant 0 <= k <= |img[i].direct| && Counted()
        invariant ScanIs(i, img[i].direct, k, 0, findroot, findcur, old(seen))
        invariant k > 0 ==>
            findroot && findcur && Names(Used(img[i].direct[0]), ".") && Names(Used(img[i].direct[0]), "..")
      {
        ok, findroot, findcur := ScanBlock(i, k, findroot, findcur, old(seen));
        if !ok {
          return;
        }
        k := k + 1;
      }
      ScanEnds(i, findroot, findcur, old(seen));
      return true;
    }

    lemma ScanStarts(i: nat)
      requires Shaped() && IsDir(img, i) && ParentsAre(i)
      ensures ScanIs(i, img[i].direct, 0, 0, false, false, seen)
    {
    }

    lemma ScanBlockEnds(i: nat, blocks: seq<seq<Entry>>, k: nat, findroot: bool, findcur: bool, before: seq<Ref>)
      requires Shaped() && IsDir(img, i) && blocks == img[i].direct && k < |blocks|
      requires ScanIs(i, blocks, k, |blocks[k]|, findroot, findcur, before) && (k > 0 ==> findroot && findcur)
      ensures ScanIs(i, blocks, k + 1, 0, findroot, findcur, before)
      ensures k == 0 ==> findroot == Names(Used(blocks[0]), "..") && findcur == Names(Used(blocks[0]), ".")
      ensures !findroot || !findcur ==> !FormatOk(img, i)
    {
      NextBlock(blocks, k);
    }

    lemma ScanEnds(i: nat, findroot: bool, findcur: bool, before: seq<Ref>)
      requires Shaped() && IsDir(img, i)
      requires var blocks := img[i].direct;
               && ScanIs(i, blocks, |blocks|, 0, findroot, findcur, before)
               && (|blocks| > 0 ==> Names(Used(blocks[0]), ".") && Names(Used(blocks[0]), ".."))
      ensures FormatOk(img, i) && ParentsAre(i + 1) && seen == before + Refs(i, Used(Flat(img[i].direct)))
    {
      NextBlockAll(img[i].direct);
    }

    /** The entries in the blocks that the indirect block of directory `i` refers to. */
    method ScanIndirect(i: nat)
      requires Shaped() && Counted() && i < |img|
      modifies `seen, inoderefer, dirreference, childentry
      ensures Counted() && seen == old(seen) + Refs(i, Flat(img[i].indirect))
    {
      hide Counted, Flat, UpTo, Used, Refs;
      ghost var blocks := img[i].indirect;
      ScanBegins(i, blocks);
      assert old(seen) + [] == old(seen);
      var k := 0;
      while k < |img[i].indirect|
        invariant 0 <= k <= |blocks| && Counted() && seen == old(seen) + Refs(i, UpTo(blocks, k, 0))
      {
        var e := 0;
        while e < |img[i].indirect[k]|
          invariant 0 <= e <= |blocks[k]| && Counted() && seen == old(seen) + Refs(i, UpTo(blocks, k, e))
        {
          NextEntry(blocks, k, e, |img|);
          var dir := img[i].indirect[k][e];
          RefsOne(i, UpTo(blocks, k, e), dir);
          CountEntry(i, dir);
          e := e + 1;
        }
        NextBlock(blocks, k);
        k := k + 1;
      }
      NextBlockAll(blocks);
    }

    /** The root is a directory, and the first ".." of each of its direct blocks names it. */
    method CheckRoot() returns (ok: bool)
      requires Shaped()
      ensures ok <==> RootOk(img)
    {
      if img[ROOTINO].typ != T_DIR {
        return false;
      }
      var blocks := img[ROOTINO].direct;
      var k := 0;
      while k < |blocks|
        invariant 0 <= k <= |blocks| && forall b :: 0 <= b < k ==> FirstParentIsRoot(blocks[b])
      {
        var e := 0;
        while e < |blocks[k]|
          invariant 0 <= e <= |blocks[k]| && forall m :: 0 <= m < e ==> blocks[k][m].name != ".."
        {
          if blocks[k][e].name == ".." {
            if ROOTINO != blocks[k][e].inum {
              return false;
            }
            break;
          }
          e := e + 1;
        }
        k := k + 1;
      }
      return true;
    }

    /** The entries of directory `i`. */
    method ScanDirectory(i: nat) returns (ok: bool)
      requires Shaped() && Counted() && IsDir(img, i) && ParentsAre(i) && SeenAre(i)
      modifies `seen, inoderefer, dirreference, childentry, parentinum
      ensures ok <==> FormatOk(img, i)
      ensures ok ==> Counted() && ParentsAre(i + 1) && SeenAre(i + 1)
    {
      RefsAfter(img, i);
      hide Counted, ParentsAre, Flat, Used, FormatOk, Refs, AllRefs, DirRefs, InRange;
      ok := ScanDirect(i);
      if ok {
        ScanIndirect(i);
      }
    }

    /** One turn of the pass over all inodes. */
    method ScanInode(i: nat) returns (ok: bool)
      requires Shaped() && Counted() && i < |img| && ParentsAre(i) && SeenAre(i)
      modifies `seen, inoderefer, dirreference, childentry, parentinum
      ensures ok <==> InodeOk(img, i)
      ensures ok ==> Counted() && ParentsAre(i + 1) && SeenAre(i + 1)
    {
      RefsAfter(img, i);
      assert !IsDir(img, i) && SeenAre(i) ==> SeenAre(i + 1);
      hide Counted, ParentsAre, SeenAre, Flat, Used, FormatOk, RootOk, Refs, InRange;
      if img[i].typ != 0 && img[i].typ != T_DIR && img[i].typ != T_FILE && img[i].typ != T_DEV {
        return false;
      }
      if i == ROOTINO {
        ok := CheckRoot();
        if !ok {
          return;
        }
      }
      if img[i].typ == T_DIR {
        ok := ScanDirectory(i);
        if !ok {
          return;
        }
      } else {
        NoParent(i);
      }
      return true;
    }

    lemma NoParent(i: nat)
      requires Shaped() && i < |img| && !IsDir(img, i) && ParentsAre(i)
      ensures ParentsAre(i + 1)
    {
    }

    /** The pass over all inodes. */
    method ScanInodes() returns (ok: bool)
      requires Shaped() && Counted() && ParentsAre(0) && seen == []
      modifies `seen, inoderefer, dirreference, childentry, parentinum
      ensures ok <==> forall i :: 0 <= i < |img| ==> InodeOk(img, i)
      ensures ok ==> Counted() && ParentsAre(|img|) && SeenAre(|img|)
    {
      var i := 0;
      assert SeenAre(0);
      hide Shaped, InRange, Counted, ParentsAre, InodeOk, SeenAre;
      while i < |img|
        invariant 0 <= i <= |img| && Counted() && ParentsAre(i) && SeenAre(i)
        invariant forall x :: 0 <= x < i ==> InodeOk(img, x)
      {
        ok := ScanInode(i);
        if !ok {
          return;
        }
        i := i + 1;
      }
      return true;
    }

    /** The pass that compares the counts with the inodes. */
    method CheckCounts() returns (ok: bool)
      requires Shaped() && Counted()
      ensures ok <==> CountsOk(img, seen)
    {
      var i := 0;
      while i < |img|
        invariant 0 <= i <= |img| && forall x :: 0 <= x < i ==> CountOk(img, seen, x)
      {
        ghost var good := CountOk(img, seen, i);
        if img[i].typ != 0 && inoderefer[i] < 1 {
          assert !good;
          return false;
        }
        if inoderefer[i] != 0 && i != 0 && img[i].typ == 0 {
          assert !good;
          return false;
        }
        if img[i].typ == T_FILE && img[i].nlink != inoderefer[i] {
          assert !good;
          return false;
        }
        if img[i].typ == T_DIR {
          if (ROOTINO != i && 1 != dirreference[i]) || (i == ROOTINO && 0 != dirreference[i]) {
            assert !good;
            return false;
          }
        }
        assert good;
        i := i + 1;
      }
      return true;
    }

    /** The pass that compares children with their "..". */
    method CheckParents() returns (ok: bool)
      requires Shaped() && Counted() && ParentsAre(|img|) && SeenAre(|img|)
      ensures ok <==> ParentsOk(img, seen)
    {
      hide Counted, ParentsAre, AllRefs, ParentsOk, InRange;
      var i := 0;
      while i < |img|
        invariant 0 <= i <= |img|
        invariant forall x, y :: 0 <= x < i && 0 <= y < |img| && childentry[x, y] ==> parentinum[y] == x
      {
        var j := 0;
        while j < |img|
          invariant 0 <= j <= |img|
          invariant forall y :: 0 <= y < j && childentry[i, y] ==> parentinum[y] == i
        {
          if childentry[i, j] && parentinum[j] != i {
            NotTheParent(i, j);
            return false;
          }
          j := j + 1;
        }
        i := i + 1;
      }
      AllMatch();
      return true;
    }

    lemma AllMatch()
      requires Shaped() && Counted() && ParentsAre(|img|) && SeenAre(|img|)
      requires forall x, y :: 0 <= x < |img| && 0 <= y < |img| && childentry[x, y] ==> parentinum[y] == x
      ensures ParentsOk(img, seen)
    {
      FromInRange(img, |img|);
      hide AllRefs, CountRefs, CountChild, ParentOf, InRange;
      forall k, y | 0 <= k < |seen| && IsChild(img, seen[k], y)
        ensures ParentOf(img, y) == seen[k].from
      {
        assert HasChild(img, seen, seen[k].from, y);
        assert childentry[seen[k].from, y];
      }
    }

    lemma NotTheParent(i: nat, j: nat)
      requires Shaped() && Counted() && ParentsAre(|img|) && i < |img| && j < |img| && childentry[i, j]
          && parentinum[j] != i
      ensures !ParentsOk(img, seen)
    {
    }

    /** The check mode of main. */
    method Check() returns (ok: bool)
      requires Shaped() && Counted() && ParentsAre(0) && seen == []
      requires forall x :: 0 <= x < |img| ==> loopdetect[x] == 0
      modifies `seen, inoderefer, dirreference, childentry, parentinum, loopdetect
      ensures ok <==> Accepted(img)
      ensures forall x :: 0 <= x < |img| ==> loopdetect[x] <= 1
    {
      AllInodes(img);
      ok := ScanInodes();
      if !ok {
        return;
      }
      ok := CheckCounts();
      if !ok {
        return;
      }
      ok := CheckParents();
      if !ok {
        return;
      }
      ParentsInRange(img);
      assert parentinum[..] == ParentSeq(img) && dirarr[..] == DirSeq(img);
      ok := DetectLoops(parentinum, dirarr, loopdetect);
    }
  }

  // ----- what acceptance means

  function ParentSeq(img: Image): (p: seq<nat>)
    ensures |p| == |img|
  {
    seq(|img|, i requires 0 <= i < |img| => ParentOf(img, i))
  }

  function DirSeq(img: Image): (dirs: seq<bool>)
    ensures |dirs| == |img|
  {
    seq(|img|, i requires 0 <= i < |img| => img[i].typ == T_DIR)
  }

  lemma {:induction false} LastParentInRange(es: seq<Entry>, n: nat)
    requires n > 0 && AllInRange(es, n)
    ensures LastParent(es) < n
  {
    if es != [] && es[|es| - 1].name != ".." {
      LastParentInRange(es[..|es| - 1], n);
    }
  }

  lemma {:induction false} UsedInRange(es: seq<Entry>, n: nat)
    requires AllInRange(es, n)
    ensures AllInRange(Used(es), n)
  {
    if es != [] {
      UsedInRange(es[..|es| - 1], n);
    }
  }

  lemma ParentsInRange(img: Image)
    requires InRange(img)
    ensures Parents(ParentSeq(img))
  {
    forall i | 0 <= i < |img|
      ensures ParentOf(img, i) < |img|
    {
      UsedInRange(Flat(img[i].direct), |img|);
      LastParentInRange(Used(Flat(img[i].direct)), |img|);
    }
  }

  /** Exactly the images that pass. */
  ghost predicate Accepted(img: Image)
    requires InRange(img)
  {
    && TypesOk(img) && RootOk(img) && FormatsOk(img)
    && CountsOk(img, AllRefs(img, |img|)) && ParentsOk(img, AllRefs(img, |img|))
    && Parents(ParentSeq(img)) && WalksOk(ParentSeq(img), DirSeq(img))
  }

  ghost predicate AllFrom(img: Image, rs: seq<Ref>, n: nat) {
    forall k :: 0 <= k < |rs| ==> rs[k].from < n && IsDir(img, rs[k].from)
  }

  lemma FromBoth(img: Image, a: seq<Ref>, b: seq<Ref>, n: nat)
    requires AllFrom(img, a, n) && AllFrom(img, b, n + 1)
    ensures AllFrom(img, a + b, n + 1)
  {
  }

  lemma FromDir(img: Image, i: nat)
    requires i < |img|
    ensures AllFrom(img, DirRefs(img, i), i + 1)
  {
  }

  lemma FromNone(img: Image)
    ensures AllFrom(img, [], 0)
  {
  }

  /** Every entry counted is in a directory. */
  lemma {:induction false} FromInRange(img: Image, n: nat)
    requires n <= |img|
    ensures AllFrom(img, AllRefs(img, n), n)
  {
    hide AllFrom, DirRefs;
    if n == 0 {
      FromNone(img);
    } else {
      FromInRange(img, n - 1);
      FromDir(img, n - 1);
      FromBoth(img, AllRefs(img, n - 1), DirRefs(img, n - 1), n - 1);
    }
  }

  /** A count of one is one entry. */
  lemma {:induction false} OnlyOne(img: Image, rs: seq<Ref>, j: int)
    ensures CountChild(img, rs, j) == 0 <==> forall k :: 0 <= k < |rs| ==> !IsChild(img, rs[k], j)
    ensures CountChild(img, rs, j) == 1 <==> exists k :: OnlyAt(img, rs, j, k)
  {
    if rs != [] {
      var n := |rs| - 1;
      var r := rs[..n];
      OnlyOne(img, r, j);
      if IsChild(img, rs[n], j) {
        if CountChild(img, r, j) == 0 {
          assert OnlyAt(img, rs, j, n);
        }
        if k :| OnlyAt(img, rs, j, k) {
          assert k == n;
          forall m | 0 <= m < n
            ensures !IsChild(img, r[m], j)
          {
            assert r[m] == rs[m];
          }
        }
      } else {
        if k :| OnlyAt(img, r, j, k) {
          assert OnlyAt(img, rs, j, k);
        }
        if k :| OnlyAt(img, rs, j, k) {
          assert OnlyAt(img, r, j, k);
        }
      }
    }
  }

  /** Entry `k` is the one entry that makes `j` a child. */
  ghost predicate OnlyAt(img: Image, rs: seq<Ref>, j: int, k: int) {
    && 0 <= k < |rs| && IsChild(img, rs[k], j)
    && forall m :: 0 <= m < |rs| && m != k ==> !IsChild(img, rs[m], j)
  }

  /** In an accepted image every directory but the root is in exactly one directory, the one
      its ".." names. */
  lemma OneContainer(img: Image, j: nat)
    requires InRange(img) && Accepted(img) && IsDir(img, j) && j != ROOTINO
    ensures exists k :: (
              && OnlyAt(img, AllRefs(img, |img|), j, k)
              && ParentOf(img, j) == AllRefs(img, |img|)[k].from && IsDir(img, AllRefs(img, |img|)[k].from))
  {
    var rs := AllRefs(img, |img|);
    assert CountsOk(img, rs) && ParentsOk(img, rs);
    hide Accepted, AllRefs, CountChild, ParentOf, InRange;
    assert CountOk(img, rs, j);
    OnlyOne(img, rs, j);
    var k :| OnlyAt(img, rs, j, k);
    FromInRange(img, |img|);
  }

  /** In an accepted image going up from any directory leads to the root. */
  lemma AllUnderTheRoot(img: Image, j: nat)
    requires InRange(img) && Accepted(img) && IsDir(img, j)
    ensures exists k: nat :: k > 0 && Up(ParentSeq(img), j, k) == ROOTINO
  {
    var p, dirs := ParentSeq(img), DirSeq(img);
    assert Parents(p) && WalksOk(p, dirs) && dirs[j];
    hide Accepted, ParentSeq, DirSeq, InRange;
    AllReach(p, dirs, j);
    EndsAtRoot(p, j);
  }

  // ----- which trees are accepted

  /** Of the directories whose walk passes `x`, `d` has the lowest number. */
  ghost predicate FirstBy(p: seq<nat>, dirs: seq<bool>, x: nat, d: nat)
    requires Parents(p) && |p| == |dirs|
  {
    d < |p| && dirs[d] && Visits(p, d, x) && forall e: nat :: e < d && dirs[e] ==> !Visits(p, e, x)
  }

  /** Directories whose walks meet are all passed by the walk of the lowest-numbered one. */
  ghost predicate FirstLeads(p: seq<nat>, dirs: seq<bool>)
    requires Parents(p) && |p| == |dirs|
  {
    forall d: nat, i: nat, x: nat :: FirstBy(p, dirs, x, d) && i < |p| && dirs[i] && Visits(p, i, x) ==> Visits(p, d, i)
  }

  ghost predicate AllReachRoot(p: seq<nat>, dirs: seq<bool>)
    requires Parents(p) && |p| == |dirs|
  {
    forall i :: 0 <= i < |p| && dirs[i] ==> Reaches(p, i)
  }

  /** Since marks are never cleared, not every tree passes: exactly those in which directories
      that share a way up lie, all of them, on the way up from the first one. */
  lemma WalksMeaning(p: seq<nat>, dirs: seq<bool>)
    requires Parents(p) && |p| == |dirs|
    ensures WalksOk(p, dirs) <==> AllReachRoot(p, dirs) && FirstLeads(p, dirs)
  {
    hide Visits, Reaches;
    if WalksOk(p, dirs) {
      forall i | 0 <= i < |p| && dirs[i]
        ensures Reaches(p, i)
      {
        AllReach(p, dirs, i);
      }
      forall d: nat, i: nat, x: nat | FirstBy(p, dirs, x, d) && i < |p| && dirs[i] && Visits(p, i, x)
        ensures Visits(p, d, i)
      {
        LedByFirst(p, dirs, x, d, i);
      }
    }
    if AllReachRoot(p, dirs) && FirstLeads(p, dirs) {
      forall i | 0 <= i < |p| && dirs[i]
        ensures WalkOk(p, dirs, i)
      {
        if x: nat :| Visits(p, i, x) && Marked(p, dirs, i, x) {
          var e: nat :| e < i && dirs[e] && Visits(p, e, x);
          var d := SomeFirst(p, dirs, x, e);
          assert Visits(p, d, i);
        }
      }
    }
  }

  /** The lowest-numbered directory whose walk passes `x`, given one of them. */
  lemma {:induction false} SomeFirst(p: seq<nat>, dirs: seq<bool>, x: nat, e: nat) returns (d: nat)
    requires Parents(p) && |p| == |dirs| && e < |p| && dirs[e] && Visits(p, e, x)
    ensures d <= e && FirstBy(p, dirs, x, d)
  {
    if c: nat :| c < e && dirs[c] && Visits(p, c, x) {
      d := SomeFirst(p, dirs, x, c);
    } else {
      d := e;
    }
  }

  lemma {:induction false} LedByFirst(p: seq<nat>, dirs: seq<bool>, x: nat, d: nat, i: nat)
    requires Parents(p) && |p| == |dirs| && WalksOk(p, dirs)
    requires FirstBy(p, dirs, x, d) && i < |p| && dirs[i] && Visits(p, i, x)
    ensures Visits(p, d, i)
    decreases i
  {
    if i == d {
      VisitsItself(p, i, x);
    } else {
      assert d < i && WalkOk(p, dirs, i) && Marked(p, dirs, i, x);
      var c: nat :| c < i && dirs[c] && Visits(p, c, i);
      VisitsOn(p, c, i, x);
      LedByFirst(p, dirs, x, d, c);
      VisitsOn(p, d, c, i);
    }
  }

  lemma VisitsItself(p: seq<nat>, i: nat, x: nat)
    requires Parents(p) && i < |p| && Visits(p, i, x)
    ensures Visits(p, i, i)
  {
    var k: nat :| GoesOn(p, i, k) && Up(p, i, k) == x;
    assert GoesOn(p, i, 0) && Up(p, i, 0) == i;
  }

  /** All that is asked of an image except what the last loop finds. */
  ghost predicate OtherwiseFine(img: Image)
    requires InRange(img)
  {
    && TypesOk(img) && RootOk(img) && FormatsOk(img)
    && CountsOk(img, AllRefs(img, |img|)) && ParentsOk(img, AllRefs(img, |img|))
  }

  /** When the last loop turns down an image that passed every test before it. */
  lemma FineImages(img: Image)
    requires InRange(img) && OtherwiseFine(img)
    ensures Parents(ParentSeq(img))
    ensures Accepted(img) <==> AllReachRoot(ParentSeq(img), DirSeq(img)) && FirstLeads(ParentSeq(img), DirSeq(img))
  {
    ParentsInRange(img);
    WalksMeaning(ParentSeq(img), DirSeq(img));
  }

  // ----- a tree that is turned down

  lemma UpIsParent(p: seq<nat>, i: nat, k: nat)
    requires Parents(p) && i < |p|
    ensures Up(p, i, k) == i || Up(p, i, k) in p
  {
  }

  const ENTRIES := 32              // in a block

  function Block(es: seq<Entry>): (b: seq<Entry>)
    requires |es| <= ENTRIES
    ensures |b| == ENTRIES
  {
    es + seq(ENTRIES - |es|, _ => Entry(0, ""))
  }

  /** What is in directory `i` of a chain: each of the directories 1, 2, 3 contains the next. */
  function Level(i: nat): (es: seq<Entry>)
    requires 1 <= i <= 4
    ensures 2 <= |es| <= 3 && es[0] == Entry(i, ".") && es[1] == Entry(if i == 1 then 1 else i - 1, "..")
    ensures i < 4 ==> |es| == 3 && es[2] == Entry(i + 1, "d")
    ensures i == 4 ==> |es| == 2
  {
    [Entry(i, "."), Entry(if i == 1 then 1 else i - 1, "..")] + if i < 4 then [Entry(i + 1, "d")] else []
  }

  /** Four directories, each in the one before it. */
  function DeepImage(): (img: Image)
    ensures |img| == 5 && img[0] == DiskInode(0, 0, [], [])
    ensures forall i :: 1 <= i <= 4 ==> img[i] == DiskInode(T_DIR, 1, [Block(Level(i))], [])
  {
    [DiskInode(0, 0, [], [])] + seq(4, i requires 0 <= i < 4 => DiskInode(T_DIR, 1, [Block(Level(i + 1))], []))
  }

  lemma {:induction false} UsedNone(n: nat)
    ensures Used(seq(n, _ => Entry(0, ""))) == []
  {
    if n > 0 {
      UsedNone(n - 1);
      assert seq(n, _ => Entry(0, ""))[..n - 1] == seq(n - 1, _ => Entry(0, ""));
    }
  }

  lemma {:induction false} UsedAll(es: seq<Entry>)
    requires forall k :: 0 <= k < |es| ==> es[k].inum != 0
    ensures Used(es) == es
  {
    if es != [] {
      UsedAll(es[..|es| - 1]);
    }
  }

  lemma LevelIsUsed(i: nat)
    requires 1 <= i <= 4
    ensures Flat([Block(Level(i))]) == Block(Level(i)) && Used(Block(Level(i))) == Level(i)
    ensures LastParent(Level(i)) == if i == 1 then 1 else i - 1
  {
    var es := Level(i);
    assert [Block(es)][..0] == [];
    UsedAll(es);
    UsedNone(ENTRIES - |es|);
    UsedAppend(es, seq(ENTRIES - |es|, _ => Entry(0, "")));
    if i < 4 {
      assert es[..2][1] == es[1];
    }
  }

  lemma {:induction false} CountRefsAdd(a: seq<Ref>, b: seq<Ref>, j: int)
    ensures CountRefs(a + b, j) == CountRefs(a, j) + CountRefs(b, j)
  {
    if b == [] {
      assert a + b == a;
    } else {
      assert (a + b)[..|a + b| - 1] == a + b[..|b| - 1];
      CountRefsAdd(a, b[..|b| - 1], j);
    }
  }

  lemma {:induction false} CountChildAdd(img: Image, a: seq<Ref>, b: seq<Ref>, j: int)
    ensures CountChild(img, a + b, j) == CountChild(img, a, j) + CountChild(img, b, j)
  {
    if b == [] {
      assert a + b == a;
    } else {
      assert (a + b)[..|a + b| - 1] == a + b[..|b| - 1];
      CountChildAdd(img, a, b[..|b| - 1], j);
    }
  }

  lemma CountTwo(img: Image, r: Ref, t: Ref, j: int)
    ensures CountRefs([r, t], j) == (if r.e.inum == j then 1 else 0) + if t.e.inum == j then 1 else 0
    ensures CountChild(img, [r, t], j) == (if IsChild(img, r, j) then 1 else 0) + if IsChild(img, t, j) then 1 else 0
  {
    assert [r, t][..1] == [r] && [r][..0] == [];
    assert CountRefs([r], j) == CountRefs([], j) + if r.e.inum == j then 1 else 0;
    assert CountChild(img, [r], j) == CountChild(img, [], j) + if IsChild(img, r, j) then 1 else 0;
  }

  lemma CountThree(img: Image, r: Ref, t: Ref, u: Ref, j: int)
    ensures CountRefs([r, t, u], j) == CountRefs([r, t], j) + if u.e.inum == j then 1 else 0
    ensures CountChild(img, [r, t, u], j) == CountChild(img, [r, t], j) + if IsChild(img, u, j) then 1 else 0
  {
    assert [r, t, u][..2] == [r, t];
  }

  /** The counts and parents of the entries of the first `n` directories of a chain of four. */
  ghost predicate ChainOk(img: Image, rs: seq<Ref>, n: nat) {
    && (forall j :: 1 <= j <= n ==> CountRefs(rs, j) >= 1)
    && (forall j :: 1 <= j <= 4 ==> CountChild(img, rs, j) == if 2 <= j <= n + 1 then 1 else 0)
    && ParentsOk(img, rs)
  }

  /** The same of the entries of directory `i` alone. */
  ghost predicate LevelOk(img: Image, rs: seq<Ref>, i: nat) {
    && CountRefs(rs, i) >= 1
    && (forall j :: 1 <= j <= 4 ==> CountChild(img, rs, j) == if j == i + 1 then 1 else 0)
    && ParentsOk(img, rs)
  }

  lemma ChainGrows(img: Image, a: seq<Ref>, b: seq<Ref>, i: nat)
    requires ChainOk(img, a, i) && LevelOk(img, b, i + 1)
    ensures ChainOk(img, a + b, i + 1)
  {
    hide CountRefs, CountChild, IsChild, ParentOf;
    forall j
      ensures CountRefs(a + b, j) == CountRefs(a, j) + CountRefs(b, j)
      ensures CountChild(img, a + b, j) == CountChild(img, a, j) + CountChild(img, b, j)
    {
      CountRefsAdd(a, b, j);
      CountChildAdd(img, a, b, j);
    }
  }

  lemma LevelCounts(img: Image, i: nat)
    requires 1 <= i <= 4 && forall j :: 1 <= j <= 4 ==> IsDir(img, j) && ParentOf(img, j) == if j == 1 then 1 else j - 1
    ensures LevelOk(img, Refs(i, Level(i)), i)
  {
    hide Level, ParentOf;
    var es, rs := Level(i), Refs(i, Level(i));
    forall j
      ensures CountRefs(rs, j) ==
                (if i == j then 1 else 0) + (if rs[1].e.inum == j then 1 else 0) + if i < 4 && j == i + 1 then 1 else 0
      ensures CountChild(img, rs, j) == if i < 4 && j == i + 1 then 1 else 0
    {
      CountTwo(img, rs[0], rs[1], j);
      if i < 4 {
        assert rs == [rs[0], rs[1], rs[2]];
        CountThree(img, rs[0], rs[1], rs[2], j);
      } else {
        assert rs == [rs[0], rs[1]];
      }
    }
  }

  lemma {:induction false} ChainRefs(img: Image, n: nat)
    requires |img| == 5 && img[0].typ == 0 && n <= 4
    requires forall i :: 1 <= i <= 4 ==>
               IsDir(img, i) && ParentOf(img, i) == (if i == 1 then 1 else i - 1)
                   && DirRefs(img, i) == Refs(i, Level(i))
    ensures ChainOk(img, AllRefs(img, n + 1), n)
  {
    hide ChainOk, LevelOk, DirRefs, ParentOf, Level;
    if n == 0 {
      NoRefs(img);
    } else {
      ChainRefs(img, n - 1);
      LevelCounts(img, n);
      ChainGrows(img, AllRefs(img, n), Refs(n, Level(n)), n - 1);
    }
  }

  lemma NoRefs(img: Image)
    requires |img| > 0 && img[0].typ == 0
    ensures ChainOk(img, AllRefs(img, 1), 0)
  {
    assert AllRefs(img, 0) + DirRefs(img, 0) == [];
  }

  /** The four directories form a tree and pass every test up to the last loop, which turns the
      image down: the walk from the fourth meets the mark that the third left on itself. */
  lemma DeepTreeRejected()
    ensures var img := DeepImage();
            && InRange(img) && OtherwiseFine(img) && !Accepted(img)
            && Parents(ParentSeq(img)) && AllReachRoot(ParentSeq(img), DirSeq(img))
  {
    var img := DeepImage();
    DeepIsFine(img);
    DeepTable(img);
    DeepWalks();
  }

  lemma DeepEntries(img: Image, i: nat)
    requires img == DeepImage() && 1 <= i <= 4
    ensures Flat(img[i].direct) == Block(Level(i)) && Used(Flat(img[i].direct)) == Level(i)
        && Flat(img[i].indirect) == []
    ensures IsDir(img, i) && ParentOf(img, i) == (if i == 1 then 1 else i - 1) && DirRefs(img, i) == Refs(i, Level(i))
  {
    LevelIsUsed(i);
    hide Used, Flat, LastParent, Block, Level, DeepImage;
    assert Flat([]) == [];
    assert Refs(i, []) == [];
    assert DirRefs(img, i) == Refs(i, Level(i)) + [];
  }

  lemma BlockParts(es: seq<Entry>)
    requires |es| <= ENTRIES
    ensures forall k :: 0 <= k < ENTRIES ==> Block(es)[k] == if k < |es| then es[k] else Entry(0, "")
  {
  }

  lemma BlockInRange(i: nat)
    requires 1 <= i <= 4
    ensures AllInRange(Block(Level(i)), 5) && FirstParentIsRoot(Block(Level(1)))
  {
    hide Block, Level;
    BlockParts(Level(i));
    BlockParts(Level(1));
    assert Block(Level(1))[1] == Entry(1, "..");
  }

  lemma LevelFormat(img: Image, i: nat)
    requires img == DeepImage() && 1 <= i <= 4
    ensures FormatOk(img, i)
  {
    DeepEntries(img, i);
    LevelIsUsed(i);
    hide Used, Flat, LastParent, Block, DeepImage;
    assert Names(Level(i), ".") && Names(Level(i), "..");
  }

  lemma DeepCounts(img: Image)
    requires img == DeepImage()
    ensures CountsOk(img, AllRefs(img, |img|)) && ParentsOk(img, AllRefs(img, |img|))
  {
    hide Used, Flat, AllRefs, CountRefs, CountChild, Block, Level, DeepImage, DirRefs, ParentOf, ParentsOk;
    forall i | 1 <= i <= 4
      ensures IsDir(img, i) && ParentOf(img, i) == (if i == 1 then 1 else i - 1) && DirRefs(img, i) == Refs(i, Level(i))
    {
      DeepEntries(img, i);
    }
    ChainRefs(img, 4);
  }

  lemma DeepIsFine(img: Image)
    requires img == DeepImage()
    ensures InRange(img) && OtherwiseFine(img)
  {
    hide Used, Flat, AllRefs, CountRefs, CountChild, Block, Level, DeepImage, DirRefs, ParentOf, CountsOk, ParentsOk,
         FormatOk, FirstParentIsRoot, AllInRange;
    DeepCounts(img);
    FlatNone();
    forall i | 1 <= i <= 4
      ensures AllInRange(Flat(img[i].direct), 5) && AllInRange(Flat(img[i].indirect), 5) && FormatOk(img, i)
      ensures FirstParentIsRoot(Block(Level(1)))
    {
      DeepEntries(img, i);
      BlockInRange(i);
      LevelFormat(img, i);
    }
  }

  lemma FlatNone()
    ensures Flat([]) == [] && AllInRange([], 5)
  {
  }

  lemma DeepTable(img: Image)
    requires img == DeepImage()
    ensures ParentSeq(img) == [0, 1, 1, 2, 3] && DirSeq(img) == [false, true, true, true, true]
  {
    forall i | 1 <= i <= 4
      ensures ParentOf(img, i) == if i == 1 then 1 else i - 1
    {
      DeepEntries(img, i);
    }
  }

  lemma DeepWays(p: seq<nat>)
    requires p == [0, 1, 1, 2, 3]
    ensures Parents(p) && (forall i :: 1 <= i <= 4 ==> Reaches(p, i))
    ensures Visits(p, 3, 3) && Visits(p, 4, 3) && !Visits(p, 1, 4) && !Visits(p, 2, 4) && !Visits(p, 3, 4)
  {
    assert Up(p, 1, 0) == 1 && Up(p, 2, 0) == 2 && Up(p, 3, 0) == 3 && Up(p, 4, 0) == 4;
    assert Up(p, 3, 1) == 2 && Up(p, 4, 1) == 3;
    assert Up(p, 4, 2) == p[Up(p, 4, 1)] == 2;
    assert p[Up(p, 1, 0)] == p[Up(p, 2, 0)] == p[Up(p, 3, 1)] == p[Up(p, 4, 2)] == ROOTINO;
    assert GoesOn(p, 3, 0) && GoesOn(p, 4, 1);
    forall d: nat, k: nat | 1 <= d < 4
      ensures Up(p, d, k) != 4
    {
      UpIsParent(p, d, k);
    }
  }

  lemma DeepWalks()
    ensures var p, dirs := [0, 1, 1, 2, 3], [false, true, true, true, true];
            && Parents(p) && AllReachRoot(p, dirs) && !WalksOk(p, dirs)
  {
    hide Visits, Reaches;
    var p: seq<nat>, dirs := [0, 1, 1, 2, 3], [false, true, true, true, true];
    DeepWays(p);
    assert Marked(p, dirs, 4, 3) && !Marked(p, dirs, 4, 4);
    assert !WalkOk(p, dirs, 4);
  }

  // ----- a tree that passes

  function RootEntries(): (es: seq<Entry>)
    ensures |es| == 2 && es[0] == Entry(1, ".") && es[1] == Entry(1, "..")
  {
    [Entry(1, "."), Entry(1, "..")]
  }

  /** An image with an empty root directory. */
  function RootImage(): (img: Image)
    ensures |img| == 2 && img[0] == DiskInode(0, 0, [], []) && img[1] == DiskInode(T_DIR, 1, [Block(RootEntries())], [])
  {
    [DiskInode(0, 0, [], []), DiskInode(T_DIR, 1, [Block(RootEntries())], [])]
  }

  lemma RootIsUsed()
    ensures Flat([Block(RootEntries())]) == Block(RootEntries()) && Used(Block(RootEntries())) == RootEntries()
    ensures LastParent(RootEntries()) == 1
    ensures AllInRange(Block(RootEntries()), 2) && FirstParentIsRoot(Block(RootEntries()))
  {
    var es := RootEntries();
    assert [Block(es)][..0] == [];
    UsedAll(es);
    UsedNone(ENTRIES - |es|);
    UsedAppend(es, seq(ENTRIES - |es|, _ => Entry(0, "")));
    BlockParts(es);
    hide Used, Flat;
    assert Block(es)[1] == Entry(1, "..");
  }

  lemma RootRefs(img: Image)
    requires img == RootImage()
    ensures AllRefs(img, 2) == [Ref(1, Entry(1, ".")), Ref(1, Entry(1, ".."))]
    ensures ParentOf(img, 1) == 1 && FormatOk(img, 1)
  {
    RootIsUsed();
    hide Used, Flat, LastParent, Block, RootImage;
    assert Flat([]) == [] by {
      FlatNone();
    }
    assert DirRefs(img, 1) == Refs(1, RootEntries()) + Refs(1, []);
    assert AllRefs(img, 1) == [] by {
      NothingBelowTheRoot(img);
    }
    assert AllRefs(img, 2) == AllRefs(img, 1) + DirRefs(img, 1);
    assert Names(RootEntries(), ".") && Names(RootEntries(), "..");
  }

  lemma NothingBelowTheRoot(img: Image)
    requires |img| > 0 && img[0].typ == 0
    ensures AllRefs(img, 1) == []
  {
    assert AllRefs(img, 0) + DirRefs(img, 0) == [];
  }

  /** The image of an empty root is accepted. */
  lemma RootAccepted()
    ensures InRange(RootImage()) && Accepted(RootImage())
  {
    hide Used, Flat, LastParent, Block, RootImage, AllRefs, AllInRange, FirstParentIsRoot, FormatOk, CountRefs,
        CountChild, WalksOk;
    var img := RootImage();
    RootIsUsed();
    FlatNone();
    AllInRangeNone(2);
    RootRefs(img);
    RootCounts(img);
    ParentsInRange(img);
    ShallowTreesPass(ParentSeq(img), DirSeq(img));
  }

  lemma AllInRangeNone(n: nat)
    ensures AllInRange([], n)
  {
  }

  lemma RootCounts(img: Image)
    requires |img| == 2 && IsDir(img, 1) && img[0].typ == 0 && ParentOf(img, 1) == 1
    ensures var rs := [Ref(1, Entry(1, ".")), Ref(1, Entry(1, ".."))]; CountsOk(img, rs) && ParentsOk(img, rs)
  {
    hide ParentOf, CountRefs, CountChild;
    forall j
      ensures var rs := [Ref(1, Entry(1, ".")), Ref(1, Entry(1, ".."))];
              CountRefs(rs, j) == (if j == 1 then 2 else 0) && CountChild(img, rs, j) == 0
    {
      CountTwo(img, Ref(1, Entry(1, ".")), Ref(1, Entry(1, "..")), j);
    }
  }

  /** Trees that are nested no deeper than a directory in a directory of the root all pass. */
  lemma ShallowTreesPass(p: seq<nat>, dirs: seq<bool>)
    requires Parents(p) && |p| == |dirs| && forall i :: 0 <= i < |p| && dirs[i] ==>
        p[i] == ROOTINO || p[p[i]] == ROOTINO
    ensures WalksOk(p, dirs)
  {
    forall i, x | 0 <= i < |p| && dirs[i] && Visits(p, i, x)
      ensures x == i
    {
      var k: nat :| GoesOn(p, i, k) && Up(p, i, k) == x;
      assert Up(p, i, 0) == i && Up(p, i, 1) == p[i];
    }
    forall i | 0 <= i < |p| && dirs[i]
      ensures WalkOk(p, dirs, i)
    {
      assert p[Up(p, i, 0)] == ROOTINO || p[Up(p, i, 1)] == ROOTINO;
    }
  }

  /** The root is in no directory. */
  lemma RootIsOnTop(img: Image, k: nat)
    requires InRange(img) && Accepted(img) && k < |AllRefs(img, |img|)|
    ensures !IsChild(img, AllRefs(img, |img|)[k], ROOTINO)
  {
    var rs := AllRefs(img, |img|);
    assert CountOk(img, rs, ROOTINO);
    OnlyOne(img, rs, ROOTINO);
  }

  /** The checker on an image. */
  method Fsck(img: Image) returns (ok: bool)
    requires InRange(img)
    ensures ok <==> Accepted(img)
  {
    var checker := new Checker(img);
    ok := checker.Check();
  }
}
