/** The name calls of kernel/sysfile.c, on the bytes of the file system.  Path names are
    resolved by the caller: each call is given the inodes that namei and nameiparent found. */
module Sysfile {
  import opened Volume
  import opened FileSystem
  import opened Directory
  import opened Links

  datatype Option<T> = None | Some(value: T)

  /** What a call returns: success, -1, or no return at all. */
  datatype Outcome = Done | Refused | Panicked

  ghost function NodeAt(g: Geometry, disk: seq<Block>, ip: Inode): Node
    requires Shaped(g, disk) && InodeShaped(g, ip)
  {
    Node(ip.typ, ip.nlink, if ip.typ == T_DIR then Dir(Content(g, disk, ip)) else map[])
  }

  /** The volume as a sequence of nodes. */
  ghost function Nodes(g: Geometry, disk: seq<Block>, inodes: seq<Inode>): (v: seq<Node>)
    requires Shaped(g, disk) && TableShaped(g, inodes)
    ensures |v| == |inodes|
  {
    seq(|inodes|, i requires 0 <= i < |inodes| => NodeAt(g, disk, inodes[i]))
  }

  ghost function View(fs: Fs): (v: seq<Node>)
    requires fs.Valid()
    ensures |v| == fs.g.ninodes
    reads fs
  {
    Nodes(fs.g, fs.disk, fs.inodes)
  }

  /** The first two entries of a directory are its dots. */
  ghost predicate DotSlots(c: seq<Byte>) {
    && Entries(c) >= 2
    && EntryInum(c, 0) != 0 && EntryKey(c, 0) == DOT
    && EntryInum(c, 1) != 0 && EntryKey(c, 1) == DOTDOT
  }

  ghost predicate DirFormed(g: Geometry, disk: seq<Block>, ip: Inode)
    requires Shaped(g, disk) && InodeShaped(g, ip)
  {
    ip.typ == T_DIR ==> DirOk(Content(g, disk, ip)) && DotSlots(Content(g, disk, ip))
  }

  ghost predicate DirsFormed(g: Geometry, disk: seq<Block>, inodes: seq<Inode>)
    requires Shaped(g, disk) && TableShaped(g, inodes)
  {
    forall i :: 0 <= i < |inodes| ==> DirFormed(g, disk, inodes[i])
  }

  ghost predicate OthersFormed(g: Geometry, disk: seq<Block>, inodes: seq<Inode>, i: nat)
    requires Shaped(g, disk) && TableShaped(g, inodes)
  {
    forall j :: 0 <= j < |inodes| && j != i ==> DirFormed(g, disk, inodes[j])
  }

  /** A file system between calls: whatever programs do, directories are well formed, names are
      of inodes in use, and no inode has fewer links than names. */
  ghost predicate Workable(fs: Fs)
    reads fs
  {
    fs.Valid() && fs.g.ninodes <= 0x1_0000 && DirsFormed(fs.g, fs.disk, fs.inodes) && Sound(View(fs))
  }

  /** The link counts are the numbers of names and the directories a tree. */
  ghost predicate Orderly(v: seq<Node>) {
    Consistent(v) && Rooted(v)
  }

  ghost predicate Sane(fs: Fs)
    reads fs
  {
    Workable(fs) && Orderly(View(fs))
  }

  /** Only file `i` changed, so only node `i` did. */
  lemma OneNodeChanged(g: Geometry, d0: seq<Block>, n0: seq<Inode>, d1: seq<Block>, n1: seq<Inode>, i: nat)
    requires Shaped(g, d0) && TableShaped(g, n0) && Shaped(g, d1) && TableShaped(g, n1)
    requires FilesOk(g, d0, n0) && FilesOk(g, d1, n1) && OtherFilesSame(g, d0, n0, d1, n1, i)
    requires i < g.ninodes
    ensures Nodes(g, d1, n1) == Nodes(g, d0, n0)[i := NodeAt(g, d1, n1[i])]
    ensures OthersFormed(g, d0, n0, i) ==> OthersFormed(g, d1, n1, i)
    ensures DirsFormed(g, d0, n0) && DirFormed(g, d1, n1[i]) ==> DirsFormed(g, d1, n1)
  {
  }

  /** What it means for all files but `i` to be the same. */
  lemma OthersAre(g: Geometry, d0: seq<Block>, n0: seq<Inode>, d1: seq<Block>, n1: seq<Inode>, i: nat)
    requires Shaped(g, d0) && TableShaped(g, n0) && Shaped(g, d1) && TableShaped(g, n1)
    requires FilesOk(g, d0, n0) && FilesOk(g, d1, n1) && OtherFilesSame(g, d0, n0, d1, n1, i)
    ensures forall j :: 0 <= j < g.ninodes && j != i ==> n1[j] == n0[j]
    ensures forall j :: 0 <= j < g.ninodes && j != i ==> Content(g, d1, n1[j]) == Content(g, d0, n0[j])
  {
    hide Content, FilesOk;
  }

  /** Gives inode `i` another link count, in memory and on the disk. */
  method SetLinks(fs: Fs, i: nat, nlink: int)
    requires fs.Valid() && i < fs.g.ninodes
    modifies fs
    ensures fs.Valid() && fs.inodes == old(fs.inodes)[i := old(fs.inodes)[i].(nlink := nlink)]
    ensures fs.disk == old(fs.disk) && fs.owner == old(fs.owner)
    ensures View(fs) == old(View(fs))[i := old(View(fs))[i].(nlink := nlink)]
    ensures old(DirsFormed(fs.g, fs.disk, fs.inodes)) ==> DirsFormed(fs.g, fs.disk, fs.inodes)
    ensures forall j: nat {:trigger OthersFormed(fs.g, fs.disk, fs.inodes, j)} ::
              old(OthersFormed(fs.g, fs.disk, fs.inodes, j)) ==> OthersFormed(fs.g, fs.disk, fs.inodes, j)
    ensures forall j :: 0 <= j < fs.g.ninodes ==> Bytes(fs, j) == old(Bytes(fs, j))
    ensures forall j: nat {:trigger EntryCost(fs, j)} :: j < fs.g.ninodes ==> EntryCost(fs, j) == old(EntryCost(fs, j))
  {
    hide AddressesOwned, OwnersHold, BitmapExact, FreeBlocksZero, Content, FileOk, DirOk, DotSlots, Dir;
    ghost var n0 := fs.inodes;
    LabelOk(fs.g, fs.disk, fs.inodes[i]);
    Relabelled(fs.g, fs.disk, fs.inodes, fs.owner, i, fs.inodes[i].(nlink := nlink));
    fs.inodes := fs.inodes[i := fs.inodes[i].(nlink := nlink)];
    OneNodeChanged(fs.g, fs.disk, n0, fs.disk, fs.inodes, i);
    assert DirFormed(fs.g, fs.disk, n0[i]) ==> DirFormed(fs.g, fs.disk, fs.inodes[i]);
  }

  lemma LabelOk(g: Geometry, disk: seq<Block>, ip: Inode)
    requires Shaped(g, disk) && InodeShaped(g, ip) && FileOk(g, disk, ip)
    ensures ip.typ == 0 ==> ip.size == 0 && forall k :: 0 <= k <= NDIRECT ==> ip.addrs[k] == 0
  {
  }

  // ----- entries of formed directories

  lemma DotSlotsKept(c: seq<Byte>, d: seq<Byte>, f: nat)
    requires DotSlots(c) && SameBut(c, d, f) && f >= 2
    ensures DotSlots(d)
  {
  }

  lemma FreeSlotIsPastDots(c: seq<Byte>)
    requires DotSlots(c)
    ensures FirstFree(c, 0) >= 2
  {
  }

  /** dirlink into a formed directory, seen from the nodes. */
  method AddName(fs: Fs, dp: nat, name: seq<Byte>, inum: nat) returns (r: LinkResult)
    requires fs.Valid() && dp < fs.g.ninodes && fs.inodes[dp].typ == T_DIR
    requires DirFormed(fs.g, fs.disk, fs.inodes[dp]) && 0 < inum < 0x1_0000
    modifies fs
    ensures fs.Valid() && DirFormed(fs.g, fs.disk, fs.inodes[dp])
    ensures old(DirsFormed(fs.g, fs.disk, fs.inodes)) ==> DirsFormed(fs.g, fs.disk, fs.inodes)
    ensures r.Exists? <==> Key(name) in old(View(fs))[dp].entries
    ensures !r.Linked? ==> View(fs) == old(View(fs))
    ensures r.Panic? <==> Key(name) !in old(View(fs))[dp].entries && old(NoRoomIn(fs, dp, 0))
    ensures r.Panic? ==> NoRoomIn(fs, dp, 0)
    ensures r.Linked? ==> FreeBlocks(fs.g, fs.owner) + old(EntryCost(fs, dp)) == old(FreeBlocks(fs.g, fs.owner))
    ensures forall j :: 0 <= j < fs.g.ninodes && j != dp ==> fs.inodes[j] == old(fs.inodes)[j]
    ensures forall j :: 0 <= j < fs.g.ninodes && j != dp ==> Bytes(fs, j) == old(Bytes(fs, j))
    ensures fs.inodes[dp] == old(fs.inodes)[dp].(addrs := fs.inodes[dp].addrs, size := fs.inodes[dp].size)
    ensures r.Exists? ==> unchanged(fs)
    ensures r.Panic? ==> Bytes(fs, dp) == old(Bytes(fs, dp))
    ensures r.Linked? ==>
              View(fs) ==
                  old(View(fs))[dp := old(View(fs))[dp].(entries := old(View(fs))[dp].entries[Key(name) := inum])]
  {
    hide AddressesOwned, OwnersHold, BitmapExact, FreeBlocksZero, Content, FileOk, DirOk, DotSlots, Dir, EntryBytes,
         Key, Overwritten, NoRoomIn, EntryCost, FreeBlocks;
    ghost var d0, n0, c := fs.disk, fs.inodes, Bytes(fs, dp);
    r := Dirlink(fs, dp, name, inum);
    if r.Linked? {
      FreeSlotIsPastDots(c);
      DirLengthIsWhole(c);
      EntryWritten(c, FirstFree(c, 0), EntryBytes(name, inum));
      DotSlotsKept(c, Bytes(fs, dp), FirstFree(c, 0));
    }
    OneNodeChanged(fs.g, d0, n0, fs.disk, fs.inodes, dp);
  }

  /** Makes the entry at `off` a free one, by writing zeros over it. */
  method ClearEntry(fs: Fs, dp: nat, off: nat) returns (n: int)
    requires fs.Valid() && dp < fs.g.ninodes && fs.inodes[dp].typ == T_DIR && DirFormed(fs.g, fs.disk, fs.inodes[dp])
    requires off % ENTRY == 0 && 2 <= off / ENTRY < Entries(Bytes(fs, dp)) && EntryInum(Bytes(fs, dp), off / ENTRY) != 0
    modifies fs
    ensures fs.Valid() && DirFormed(fs.g, fs.disk, fs.inodes[dp]) && n == ENTRY
    ensures old(DirsFormed(fs.g, fs.disk, fs.inodes)) ==> DirsFormed(fs.g, fs.disk, fs.inodes)
    ensures var x := old(View(fs))[dp];
            View(fs) == old(View(fs))[dp := x.(entries := x.entries - {EntryKey(old(Bytes(fs, dp)), off / ENTRY)})]
    ensures FreeBlocks(fs.g, fs.owner) == old(FreeBlocks(fs.g, fs.owner))
    ensures forall j :: 0 <= j < fs.g.ninodes ==> fs.inodes[j].size == old(fs.inodes)[j].size
    ensures forall j :: 0 <= j < fs.g.ninodes && j != dp ==> fs.inodes[j] == old(fs.inodes)[j]
    ensures forall j :: 0 <= j < fs.g.ninodes && j != dp ==> Bytes(fs, j) == old(Bytes(fs, j))
    ensures fs.inodes[dp] == old(fs.inodes)[dp].(addrs := fs.inodes[dp].addrs)
  {
    hide AddressesOwned, OwnersHold, BitmapExact, FreeBlocksZero, Content, HasBlocks, DirOk, DotSlots, Dir, EntryKey,
         EntryInum, Overwritten, FreeBlocks, Cost, WriteCost;
    ghost var d0, n0, c := fs.disk, fs.inodes, Bytes(fs, dp);
    FileFits(fs.g, fs.disk, fs.inodes[dp]);
    DirLengthIsWhole(c);
    EntryInFile(c, off);
    EntryWriteCost(fs.inodes[dp], off);
    n := fs.Writei(dp, Zeros(ENTRY), off, map[]);
    assert Zeros(ENTRY)[..ENTRY] == Zeros(ENTRY);
    ZeroEntry(c, off / ENTRY);
    EntryRemoved(c, Bytes(fs, dp), off / ENTRY);
    DotSlotsKept(c, Bytes(fs, dp), off / ENTRY);
    OneNodeChanged(fs.g, d0, n0, fs.disk, fs.inodes, dp);
  }

  lemma DirLengthIsWhole(c: seq<Byte>)
    requires DirOk(c)
    ensures |c| % ENTRY == 0 && |c| == ENTRY * Entries(c)
  {
  }

  lemma EntryInFile(c: seq<Byte>, off: nat)
    requires off % ENTRY == 0 && off / ENTRY < Entries(c)
    ensures off + ENTRY <= |c|
  {
  }

  lemma ZeroEntry(c: seq<Byte>, f: nat)
    requires |c| % ENTRY == 0 && f < Entries(c)
    ensures var d := Overwritten(c, ENTRY * f, Zeros(ENTRY));
            SameBut(c, d, f) && f < Entries(d) && EntryInum(d, f) == 0
  {
    EntryWritten(c, f, Zeros(ENTRY));
  }

  // ----- what the kernel panics of

  /** No inode is free. */
  ghost predicate NoInode(fs: Fs)
    reads fs
  {
    forall j :: 1 <= j < |fs.inodes| ==> fs.inodes[j].typ != 0
  }

  ghost predicate CannotAdd(fs: Fs, dp: nat)
    requires fs.Valid()
    reads fs
  {
    dp < fs.g.ninodes && fs.inodes[dp].typ == T_DIR && NoRoomIn(fs, dp, 0)
  }

  /** There is no free inode, no free block, or no room in some directory. */
  ghost predicate NoRoom(fs: Fs)
    requires fs.Valid()
    reads fs
  {
    NoInode(fs) || FreeBlocks(fs.g, fs.owner) == 0 || exists dp: nat :: CannotAdd(fs, dp)
  }

  /** The entry `key` of directory `dp` names a free inode, as ".." can in a directory that was
      unlinked before its parent was. */
  ghost predicate Dangles(v: seq<Node>, dp: nat, key: seq<Byte>) {
    dp < |v| && key in v[dp].entries && v[dp].entries[key] < |v| && v[v[dp].entries[key]].typ == 0
  }

  /** When create panics: locking a free inode, or for lack of an inode, a block for the dots of a
      new directory, or room for its name. */
  ghost predicate CreatePanics(fs: Fs, dp: nat, key: seq<Byte>, typ: int)
    requires fs.Valid()
    reads fs
  {
    && dp < fs.g.ninodes
    && var dirs := if typ == T_DIR then 1 else 0;
       if key in View(fs)[dp].entries then Dangles(View(fs), dp, key)
       else NoInode(fs) || FreeBlocks(fs.g, fs.owner) < dirs || NoRoomIn(fs, dp, dirs)
  }

  // ----- what the calls do to the nodes

  /** What path resolution finds as the parent of a name: a directory, perhaps one that is
      unlinked but still somebody's current directory. */
  ghost predicate IsParent(v: seq<Node>, parent: Option<nat>) {
    parent.Some? ==> parent.value < |v| && v[parent.value].typ == T_DIR
  }

  /** The parent is a directory without links. */
  ghost predicate DeadParent(v: seq<Node>, parent: Option<nat>) {
    parent.Some? && parent.value < |v| && v[parent.value].nlink == 0
  }

  /** When sys_link returns -1. */
  ghost predicate LinkRefused(v: seq<Node>, ip: nat, parent: Option<nat>, key: seq<Byte>) {
    ip >= |v| || (parent.Some? && parent.value >= |v|) || v[ip].typ == T_DIR || parent.None?
        || key in v[parent.value].entries
  }

  /** What sys_link does to the nodes. */
  ghost predicate Linked(v: seq<Node>, v': seq<Node>, ip: nat, parent: Option<nat>, key: seq<Byte>) {
    && parent.Some? && ip < |v| && parent.value < |v|
    && v' == v[parent.value := Holding(v[parent.value], key, ip, 0)][ip := v[ip].(nlink := v[ip].nlink + 1)]
  }

  lemma DotsKnown(v: seq<Node>, dp: nat, key: seq<Byte>)
    requires Sound(v) && dp < |v| && v[dp].typ == T_DIR && key !in v[dp].entries
    ensures key != DOT && key != DOTDOT && dp > 0
  {
    assert SoundNode(v, dp);
  }

  /** A link keeps soundness always, and order exactly if the directory is not unlinked. */
  lemma LinkedMeans(v: seq<Node>, v': seq<Node>, ip: nat, parent: Option<nat>, key: seq<Byte>)
    requires Sound(v) && 0 < ip < |v| && v[ip].typ != 0 && IsParent(v, parent) && !LinkRefused(v, ip, parent, key)
    requires Linked(v, v', ip, parent, key)
    ensures Sound(v')
    ensures Orderly(v) ==> (Orderly(v') <==> !DeadParent(v, parent)) && (Consistent(v') <==> !DeadParent(v, parent))
  {
    var dp := parent.value;
    DotsKnown(v, dp, key);
    assert SoundNode(v, ip);
    ProperGrows(v[dp], key, ip);
    NamedIsSound(v, v', Name(dp, key), ip);
    hide Sound, Consistent, Rooted, Gains;
    if Orderly(v) {
      if v[dp].nlink == 0 {
        DeadGainsName(v, v', ip, dp, key);
      } else {
        LinkKeeps(v, v', ip, dp, key);
        LinkKeepsTree(v, v', ip, dp, key);
      }
    }
  }

  /** When sys_unlink returns -1. */
  ghost predicate UnlinkRefused(v: seq<Node>, parent: Option<nat>, key: seq<Byte>) {
    || parent.None? || parent.value >= |v| || key == DOT || key == DOTDOT || key !in v[parent.value].entries
    || (var ip := v[parent.value].entries[key]; ip < |v| && v[ip].typ == T_DIR && v[ip].Proper() != map[])
  }

  /** The nodes once the name and its links are gone. */
  ghost function WithoutName(v: seq<Node>, dp: nat, key: seq<Byte>): seq<Node>
    requires dp < |v| && key in v[dp].entries && v[dp].entries[key] < |v|
  {
    var ip := v[dp].entries[key];
    v[dp := Dropping(v[dp], key, if v[ip].typ == T_DIR then 1 else 0)][ip := v[ip].(nlink := v[ip].nlink - 1)]
  }

  /** The nodes after sys_unlink; the last reference to an inode without links frees it. */
  ghost predicate Unlinked(v: seq<Node>, v': seq<Node>, dp: nat, key: seq<Byte>, refs: nat) {
    && dp < |v| && key in v[dp].entries && v[dp].entries[key] < |v|
    && var ip, w := v[dp].entries[key], WithoutName(v, dp, key);
       v' == if refs == 0 && w[ip].nlink == 0 then w[ip := Node(0, 0, map[])] else w
  }

  /** What soundness says of an inode that a directory names. */
  lemma NamedInode(v: seq<Node>, dp: nat, key: seq<Byte>)
    requires Sound(v) && dp < |v| && key in v[dp].entries && key != DOT && key != DOTDOT
    ensures 0 < v[dp].entries[key] < |v| && key in v[dp].Proper()
    ensures v[v[dp].entries[key]].typ != 0 && v[v[dp].entries[key]].nlink >= 1
  {
    var ip := v[dp].Proper()[key];
    assert SoundNode(v, dp) && SoundNode(v, ip);
    assert Name(dp, key) in Names(v, ip);
  }

  /** Unlinking keeps soundness and order. */
  lemma UnlinkedMeans(v: seq<Node>, dp: nat, key: seq<Byte>)
    requires Sound(v) && dp < |v| && v[dp].typ == T_DIR && !UnlinkRefused(v, Some(dp), key)
    ensures v[dp].entries[key] < |v| && v[dp].entries[key] != dp && Sound(WithoutName(v, dp, key))
    ensures Orderly(v) ==> Orderly(WithoutName(v, dp, key))
  {
    NamedInode(v, dp, key);
    var ip, w := v[dp].entries[key], WithoutName(v, dp, key);
    UnnamedIsSound(v, w, Name(dp, key), ip);
    hide Sound, Consistent, Rooted;
    if Orderly(v) {
      if v[dp].nlink == 0 {
        DeadIsEmpty(v, dp);
      }
      UnlinkKeeps(v, w, ip, dp, key);
      UnlinkKeepsTree(v, w, ip, dp, key);
    }
  }

  /** In an unlinked directory nothing can be unlinked. */
  lemma DeadParentRefuses(v: seq<Node>, dp: nat, key: seq<Byte>)
    requires Consistent(v) && dp < |v| && v[dp].typ == T_DIR && v[dp].nlink == 0
    ensures UnlinkRefused(v, Some(dp), key)
  {
    if key in v[dp].entries && key != DOT && key != DOTDOT {
      assert key in v[dp].Proper();
      DeadIsEmpty(v, dp);
      assert false;
    }
  }

  lemma FreedMeans(v: seq<Node>, i: nat)
    requires Sound(v) && i < |v| && v[i].typ != 0 && v[i].nlink == 0
    ensures Sound(v[i := Node(0, 0, map[])])
    ensures Orderly(v) ==> Orderly(v[i := Node(0, 0, map[])])
  {
    FreedIsSound(v, i);
    hide Sound, Consistent, Rooted;
    if Orderly(v) {
      FreeKeeps(v, i);
      FreeKeepsTree(v, i);
    }
  }

  datatype Creation = Made(inum: nat) | Opened(inum: nat) | Failed | Stuck

  /** What create answers: an existing file is opened, anything else of the name is a failure,
      and a new name gets an inode that was free. */
  ghost predicate CreateAnswers(v: seq<Node>, parent: Option<nat>, key: seq<Byte>, typ: int, r: Creation) {
    if parent.None? || parent.value >= |v| then r.Failed?
    else if key in v[parent.value].entries then
      var ip := v[parent.value].entries[key];
      if Dangles(v, parent.value, key) then r.Stuck?
      else r == if typ == T_FILE && ip < |v| && v[ip].typ == T_FILE then Opened(ip) else Failed
    else r.Stuck? || r.Made?
  }

  /** What create does to the nodes when it takes inode `ip`. */
  ghost predicate Created(v: seq<Node>, v': seq<Node>, parent: Option<nat>, key: seq<Byte>, typ: int, ip: nat) {
    && parent.Some? && parent.value < |v| && 0 < ip < |v| && v[ip].typ == 0
    && v' == v[parent.value := Holding(v[parent.value], key, ip, if typ == T_DIR then 1 else 0)]
              [ip := Node(typ, 1, if typ == T_DIR then map[DOT := ip, DOTDOT := parent.value] else map[])]
  }

  /** A new file or directory keeps soundness always, and order exactly if the directory it is
      made in is not unlinked. */
  lemma CreatedMeans(v: seq<Node>, v': seq<Node>, parent: Option<nat>, key: seq<Byte>, typ: int, ip: nat)
    requires Sound(v) && typ != 0 && IsParent(v, parent) && Created(v, v', parent, key, typ, ip)
    requires key !in v[parent.value].entries
    ensures Sound(v')
    ensures Orderly(v) ==> (Orderly(v') <==> !DeadParent(v, parent)) && (Consistent(v') <==> !DeadParent(v, parent))
  {
    var dp := parent.value;
    DotsKnown(v, dp, key);
    DotsDiffer();
    assert SoundNode(v, ip);
    ProperGrows(v[dp], key, ip);
    NamedIsSound(v, v', Name(dp, key), ip);
    hide Sound, Consistent, Rooted, Gains;
    if Orderly(v) {
      if v[dp].nlink == 0 {
        DeadGainsName(v, v', ip, dp, key);
      } else if typ == T_DIR {
        CreateDirKeeps(v, v', ip, dp, key);
        CreateDirKeepsTree(v, v', ip, dp, key);
      } else {
        CreateFileKeeps(v, v', ip, dp, key, typ);
        CreateFileKeepsTree(v, v', ip, dp, key, typ);
      }
    }
  }

  /** Only ".." of a directory that is unlinked can name a free inode. */
  lemma OnlyDeadDangles(v: seq<Node>, dp: nat, key: seq<Byte>)
    requires Sound(v) && Dangles(v, dp, key)
    ensures key == DOTDOT && (Consistent(v) ==> v[dp].typ == T_DIR && v[dp].nlink == 0)
  {
    assert SoundNode(v, dp);
    assert key != DOT && key != DOTDOT ==> key in v[dp].Proper();
    if Consistent(v) {
      assert NodeOk(v, dp);
    }
  }

  // ----- what the calls do to the files

  datatype Call =
    | Linking(ip: nat, parent: Option<nat>, name: seq<Byte>)
    | Unlinking(parent: Option<nat>, name: seq<Byte>, refs: nat)
    | Creating(parent: Option<nat>, name: seq<Byte>, typ: int, major: int, minor: int)
    | Releasing(ip: nat)
    | Writing(ip: nat, src: seq<Byte>, off: nat, driver: map<int, int>)

  /** A file as its users see it, with its inode. */
  datatype File = File(inode: Inode, bytes: seq<Byte>)

  datatype Snapshot = Snapshot(files: seq<File>, free: nat)

  ghost function FilesOf(g: Geometry, disk: seq<Block>, inodes: seq<Inode>): (w: seq<File>)
    requires Shaped(g, disk) && TableShaped(g, inodes)
    ensures |w| == |inodes|
  {
    seq(|inodes|, i requires 0 <= i < |inodes| => File(inodes[i], Content(g, disk, inodes[i])))
  }

  /** All files and the number of free blocks. */
  ghost function Snap(fs: Fs): (w: Snapshot)
    requires fs.Valid()
    ensures |w.files| == fs.g.ninodes
    reads fs
  {
    Snapshot(FilesOf(fs.g, fs.disk, fs.inodes), FreeBlocks(fs.g, fs.owner))
  }

  /** The nodes that a snapshot shows. */
  ghost function NodesOf(w: Snapshot): (v: seq<Node>)
    ensures |v| == |w.files|
  {
    seq(|w.files|, i requires 0 <= i < |w.files| =>
      var x := w.files[i];
      Node(x.inode.typ, x.inode.nlink, if x.inode.typ == T_DIR then Dir(x.bytes) else map[]))
  }

  lemma SnapShowsNodes(fs: Fs)
    requires fs.Valid()
    ensures NodesOf(Snap(fs)) == View(fs)
  {
    hide Content, Dir, FreeBlocks;
  }

  /** Only the link count changed. */
  ghost predicate Relinked(x: File, y: File) {
    y.bytes == x.bytes && y.inode == x.inode.(nlink := y.inode.nlink)
  }

  /** A directory got or lost an entry. */
  ghost predicate Renamed(x: File, y: File) {
    y.inode == x.inode.(nlink := y.inode.nlink, addrs := y.inode.addrs, size := y.inode.size)
  }

  /** `src` was written at `off` of file `ip`, as much of it as there was room for. */
  ghost predicate Wrote(w: Snapshot, y: File, ip: nat, src: seq<Byte>, off: nat) {
    && ip < |w.files|
    && var x := w.files[ip];
    && |x.inode.addrs| == NDIRECT + 1 && x.inode.typ == y.inode.typ
    && if x.inode.typ == T_DEV || Misplaced(x.inode.size, off, |src|) then y == x
       else
         && Renamed(x, y) && y.inode.nlink == x.inode.nlink && off <= |x.bytes|
         && var room := WriteRoom(off, |src|);
         && exists n: nat {:trigger src[..n]} :: (
              && n <= |src| && n <= room && y.bytes == Overwritten(x.bytes, off, src[..n])
              && (n < room <==> w.free < WriteCost(x.inode, off + room)))
  }

  lemma WroteAs(w: Snapshot, y: File, ip: nat, src: seq<Byte>, off: nat, n: int)
    requires ip < |w.files|
    requires var x := w.files[ip];
      && |x.inode.addrs| == NDIRECT + 1 && x.inode.typ == y.inode.typ && |x.bytes| == x.inode.size
      && (x.inode.typ == T_DEV || Misplaced(x.inode.size, off, |src|) ==> y == x)
      && (x.inode.typ != T_DEV && !Misplaced(x.inode.size, off, |src|) ==>
          && Renamed(x, y) && y.inode.nlink == x.inode.nlink
          && 0 <= n <= WriteRoom(off, |src|) && y.bytes == Overwritten(x.bytes, off, src[..n])
          && (n < WriteRoom(off, |src|) <==> w.free < WriteCost(x.inode, off + WriteRoom(off, |src|))))
    ensures Wrote(w, y, ip, src, off)
  {
  }

  /** What a call that does not panic does to the files: only a write and the parent of a name
      change in contents, beside the inode that is freed or made. */
  ghost predicate FilesPlayed(w: Snapshot, w': Snapshot, c: Call) {
    && |w'.files| == |w.files|
    && forall j :: 0 <= j < |w.files| ==>
         var x, y := w.files[j], w'.files[j];
         match c
         case Linking(_, parent, _) => if Some(j) == parent then Renamed(x, y) else Relinked(x, y)
         case Unlinking(parent, _, _) =>
           if Some(j) == parent then Renamed(x, y)
           else if x.inode.typ != 0 && y.inode.typ == 0 then y.bytes == []
           else Relinked(x, y)
         case Creating(parent, _, typ, major, minor) =>
           if Some(j) == parent then Renamed(x, y)
           else if x.inode.typ == 0 && y.inode.typ != 0 then
             && y.inode == Inode(typ, major, minor, 1, y.inode.size, y.inode.addrs)
             && (typ != T_DIR ==> y.bytes == [])
           else y == x
         case Releasing(ip) => if j == ip && x.inode.nlink == 0 then y.bytes == [] else y == x
         case Writing(ip, src, off, _) => if j == ip then Wrote(w, y, ip, src, off) else y == x
  }

  /** A name call that is refused touches nothing. */
  lemma NothingPlayed(w: Snapshot, c: Call)
    requires c.Linking? || c.Unlinking? || c.Creating?
    ensures FilesPlayed(w, w, c)
  {
  }

  lemma LinkPlayed(g: Geometry, d0: seq<Block>, n0: seq<Inode>, d1: seq<Block>, n1: seq<Inode>, f0: nat, f1: nat,
                   ip: nat, parent: Option<nat>, name: seq<Byte>)
    requires Shaped(g, d0) && TableShaped(g, n0) && Shaped(g, d1) && TableShaped(g, n1)
    requires forall j :: 0 <= j < g.ninodes && Some(j) != parent ==>
               Content(g, d1, n1[j]) == Content(g, d0, n0[j]) && n1[j] == n0[j].(nlink := n1[j].nlink)
    requires parent.Some? && parent.value < g.ninodes ==>
               && var dp := parent.value;
               && n1[dp] == n0[dp].(addrs := n1[dp].addrs, size := n1[dp].size)
    ensures FilesPlayed(Snapshot(FilesOf(g, d0, n0), f0), Snapshot(FilesOf(g, d1, n1), f1), Linking(ip, parent, name))
  {
    hide Content;
  }

  lemma UnlinkPlayed(g: Geometry, d0: seq<Block>, n0: seq<Inode>, d1: seq<Block>, n1: seq<Inode>, f0: nat, f1: nat,
                     parent: Option<nat>, name: seq<Byte>, refs: nat, ip: nat)
    requires Shaped(g, d0) && TableShaped(g, n0) && Shaped(g, d1) && TableShaped(g, n1)
    requires parent.Some? && parent.value < g.ninodes && ip < g.ninodes && n0[ip].typ != 0
    requires var dp := parent.value;
               && (forall j :: 0 <= j < g.ninodes && j != dp && j != ip ==>
                  n1[j] == n0[j] && Content(g, d1, n1[j]) == Content(g, d0, n0[j]))
               && (n1[ip].typ != 0 ==>
                     && n1[ip] == n0[ip].(nlink := n1[ip].nlink)
                     && Content(g, d1, n1[ip]) == Content(g, d0, n0[ip]))
               && (n1[ip].typ == 0 ==> Content(g, d1, n1[ip]) == [])
               && n1[dp] == n0[dp].(nlink := n1[dp].nlink, addrs := n1[dp].addrs)
    ensures FilesPlayed(Snapshot(FilesOf(g, d0, n0), f0), Snapshot(FilesOf(g, d1, n1), f1),
                        Unlinking(parent, name, refs))
  {
    hide Content;
  }

  lemma CreatePlayed(g: Geometry, d0: seq<Block>, n0: seq<Inode>, d1: seq<Block>, n1: seq<Inode>, f0: nat, f1: nat,
                     parent: Option<nat>, name: seq<Byte>, typ: int, major: int, minor: int, inum: nat)
    requires Shaped(g, d0) && TableShaped(g, n0) && Shaped(g, d1) && TableShaped(g, n1)
    requires parent.Some? && parent.value < g.ninodes && inum < g.ninodes
    requires var dp, ip := parent.value, n1[inum];
               && ip == Inode(typ, major, minor, 1, ip.size, ip.addrs)
               && (typ != T_DIR ==> Content(g, d1, ip) == []) && n0[inum].typ == 0 && typ != 0
               && (forall j :: 0 <= j < g.ninodes && j != dp && j != inum ==>
                  n1[j] == n0[j] && Content(g, d1, n1[j]) == Content(g, d0, n0[j]))
               && n1[dp] == n0[dp].(nlink := n1[dp].nlink, addrs := n1[dp].addrs, size := n1[dp].size)
    ensures FilesPlayed(Snapshot(FilesOf(g, d0, n0), f0), Snapshot(FilesOf(g, d1, n1), f1),
                        Creating(parent, name, typ, major, minor))
  {
    hide Content;
  }

  lemma ReleasePlayed(g: Geometry, d0: seq<Block>, n0: seq<Inode>, d1: seq<Block>, n1: seq<Inode>, f0: nat, f1: nat,
                      i: nat)
    requires Shaped(g, d0) && TableShaped(g, n0) && Shaped(g, d1) && TableShaped(g, n1)
    requires i < g.ninodes
    requires if n0[i].nlink == 0 then Content(g, d1, n1[i]) == [] else d1 == d0 && n1 == n0
    requires forall j :: 0 <= j < g.ninodes && j != i ==>
               n1[j] == n0[j] && Content(g, d1, n1[j]) == Content(g, d0, n0[j])
    ensures FilesPlayed(Snapshot(FilesOf(g, d0, n0), f0), Snapshot(FilesOf(g, d1, n1), f1), Releasing(i))
  {
    hide Content;
  }

  lemma WritePlayed(g: Geometry, d0: seq<Block>, n0: seq<Inode>, d1: seq<Block>, n1: seq<Inode>, f0: nat, f1: nat,
                    i: nat, src: seq<Byte>, off: nat, driver: map<int, int>, n: int)
    requires Shaped(g, d0) && TableShaped(g, n0) && Shaped(g, d1) && TableShaped(g, n1)
    requires i < g.ninodes && FileOk(g, d0, n0[i])
    requires forall j :: 0 <= j < g.ninodes && j != i ==>
               n1[j] == n0[j] && Content(g, d1, n1[j]) == Content(g, d0, n0[j])
    requires n1[i] == n0[i].(addrs := n1[i].addrs, size := n1[i].size)
    requires n1[i].typ == T_DEV || Misplaced(n0[i].size, off, |src|) ==> d1 == d0 && n1 == n0
    requires n1[i].typ != T_DEV && !Misplaced(n0[i].size, off, |src|) ==>
               && 0 <= n <= WriteRoom(off, |src|) && off <= |Content(g, d0, n0[i])|
               && Content(g, d1, n1[i]) == Overwritten(Content(g, d0, n0[i]), off, src[..n])
               && (n < WriteRoom(off, |src|) <==> f0 < WriteCost(n0[i], off + WriteRoom(off, |src|)))
    ensures FilesPlayed(Snapshot(FilesOf(g, d0, n0), f0), Snapshot(FilesOf(g, d1, n1), f1),
                        Writing(i, src, off, driver))
  {
    hide Content, Wrote, Overwritten, WriteCost;
    WroteAs(Snapshot(FilesOf(g, d0, n0), f0), FilesOf(g, d1, n1)[i], i, src, off, n);
  }

  // ----- the calls

  /** sys_link: `ip` is what namei found for the old path, `parent` what nameiparent
      found for the new one. */
  method Link(fs: Fs, ip: nat, parent: Option<nat>, name: seq<Byte>) returns (r: Outcome)
    requires Workable(fs) && 0 < ip < fs.g.ninodes && fs.inodes[ip].typ != 0 && IsParent(View(fs), parent)
    modifies fs
    ensures fs.Valid() && (!r.Panicked? ==> Workable(fs))
    ensures r.Panicked? <==> !old(LinkRefused(View(fs), ip, parent, Key(name))) && old(NoRoomIn(fs, parent.value, 0))
    ensures r.Panicked? ==> NoRoom(fs)
    ensures r.Refused? ==> fs.inodes == old(fs.inodes) && fs.disk == old(fs.disk) && fs.owner == old(fs.owner)
    // whatever happens, only the parent's contents and link counts change
    ensures forall j :: 0 <= j < fs.g.ninodes && Some(j) != parent ==>
              && Bytes(fs, j) == old(Bytes(fs, j))
              && fs.inodes[j] == old(fs.inodes)[j].(nlink := fs.inodes[j].nlink)
    ensures parent.Some? ==>
              && var dp := parent.value;
              && fs.inodes[dp] == old(fs.inodes)[dp].(addrs := fs.inodes[dp].addrs, size := fs.inodes[dp].size)
              && (!r.Done? ==> Bytes(fs, dp) == old(Bytes(fs, dp)))
    ensures r.Done? ==> FilesPlayed(old(Snap(fs)), Snap(fs), Linking(ip, parent, name))
    ensures old(LinkRefused(View(fs), ip, parent, Key(name))) <==> r.Refused?
    ensures r.Done? ==> Linked(old(View(fs)), View(fs), ip, parent, Key(name))
    ensures r.Done? && old(Orderly(View(fs))) ==>
              && (Orderly(View(fs)) <==> !DeadParent(old(View(fs)), parent))
              && (Consistent(View(fs)) <==> !DeadParent(old(View(fs)), parent))
  {
    hide AddressesOwned, OwnersHold, BitmapExact, FreeBlocksZero, Content, FileOk, DirOk, DotSlots, Dir, Sound, Key,
         DirFormed, EntryCost, FreeBlocks, Orderly, FilesOf, FilesPlayed;
    ghost var v, d0, n0, f0 := View(fs), fs.disk, fs.inodes, FreeBlocks(fs.g, fs.owner);
    if fs.inodes[ip].typ == T_DIR {
      return Refused;
    }
    SetLinks(fs, ip, fs.inodes[ip].nlink + 1);
    if parent.Some? {
      var dp := parent.value;
      assert DirFormed(fs.g, fs.disk, fs.inodes[dp]);
      assert EntryCost(fs, dp) == old(EntryCost(fs, dp));
      var linked := AddName(fs, dp, name, ip);
      if linked.Panic? {
        assert CannotAdd(fs, dp);
        return Panicked;
      }
      if linked.Linked? {
        assert Linked(v, View(fs), ip, parent, Key(name));
        LinkedMeans(v, View(fs), ip, parent, Key(name));
        assert forall j :: 0 <= j < fs.g.ninodes && j != dp ==>
            fs.inodes[j] == n0[j].(nlink := fs.inodes[j].nlink) && Bytes(fs, j) == old(Bytes(fs, j));
        LinkPlayed(fs.g, d0, n0, fs.disk, fs.inodes, f0, FreeBlocks(fs.g, fs.owner), ip, parent, name);
        return Done;
      }
    }
    SetLinks(fs, ip, fs.inodes[ip].nlink - 1);
    assert fs.inodes == old(fs.inodes);
    return Refused;
  }

  lemma DotKeys()
    ensures Key(DOT) == DOT && Key(DOTDOT) == DOTDOT
  {
  }

  /** The live entries from the third one on are the proper ones. */
  lemma ProperEntries(c: seq<Byte>, x: Node)
    requires DirOk(c) && DotSlots(c) && x.entries == Dir(c)
    ensures x.Proper() == map[] <==> forall k :: 2 <= k < Entries(c) ==> EntryInum(c, k) == 0
  {
    hide EntryInum, EntryKey, Entries;
    if k :| 2 <= k < Entries(c) && EntryInum(c, k) != 0 {
      DirUpToMember(c, Entries(c), EntryKey(c, k));
      assert EntryKey(c, k) in x.Proper();
    } else {
      forall key
        ensures key !in x.Proper()
      {
        DirUpToMember(c, Entries(c), key);
      }
    }
  }

  /** isdirempty: no live entry after the first two. */
  method IsDirEmpty(fs: Fs, i: nat) returns (empty: bool)
    requires fs.Valid() && i < fs.g.ninodes && fs.inodes[i].typ == T_DIR && DirFormed(fs.g, fs.disk, fs.inodes[i])
    modifies fs
    ensures unchanged(fs)
    ensures empty <==> View(fs)[i].Proper() == map[]
  {
    hide AddressesOwned, OwnersHold, BitmapExact, FreeBlocksZero, Content, HasBlocks, DirOk, Dir, DotSlots, EntryInum,
        EntryKey;
    ghost var c := Bytes(fs, i);
    FileFits(fs.g, fs.disk, fs.inodes[i]);
    DirLengthIsWhole(c);
    ProperEntries(c, View(fs)[i]);
    AtLeastDots(c);
    var off := 2 * ENTRY;
    while off < fs.inodes[i].size
      invariant unchanged(fs) && off % ENTRY == 0 && off <= fs.inodes[i].size
      invariant forall k :: 2 <= k < off / ENTRY ==> EntryInum(c, k) == 0
      decreases fs.inodes[i].size - off
    {
      var n, de := fs.Readi(i, off, ENTRY, map[]);
      if n != ENTRY {
        assert false;       // the source panics here
      }
      EntryRead(c, off, de);
      if (de[0] as int) + 0x100 * (de[1] as int) != 0 {
        return false;
      }
      off := off + ENTRY;
    }
    return true;
  }

  lemma AtLeastDots(c: seq<Byte>)
    requires DotSlots(c)
    ensures Entries(c) >= 2
  {
  }

  /** No block was taken or freed and every file has the size it had. */
  ghost predicate BlocksKept(g: Geometry, n0: seq<Inode>, o0: map<nat, Place>, n1: seq<Inode>, o1: map<nat, Place>) {
    && FreeBlocks(g, o1) == FreeBlocks(g, o0) && |n1| == |n0| && forall j :: 0 <= j < |n0| ==> n1[j].size == n0[j].size
  }

  /** The second half of sys_unlink: the entry at `off` of directory `dp` goes, with the links it
      stood for, and inode `ip` with its last reference. */
  method TakeAway(fs: Fs, dp: nat, off: nat, ip: nat, refs: nat)
    requires fs.Valid() && DirsFormed(fs.g, fs.disk, fs.inodes) && dp < fs.g.ninodes && fs.inodes[dp].typ == T_DIR
    requires off % ENTRY == 0 && 2 <= off / ENTRY < Entries(Bytes(fs, dp)) && EntryInum(Bytes(fs, dp), off / ENTRY) != 0
    requires ip < fs.g.ninodes && ip != dp && fs.inodes[ip].typ != 0
    requires EntryKey(Bytes(fs, dp), off / ENTRY) in View(fs)[dp].entries
    requires View(fs)[dp].entries[EntryKey(Bytes(fs, dp), off / ENTRY)] == ip
    modifies fs
    ensures fs.Valid() && DirsFormed(fs.g, fs.disk, fs.inodes)
    ensures Unlinked(old(View(fs)), View(fs), dp, EntryKey(old(Bytes(fs, dp)), off / ENTRY), refs)
    ensures refs > 0 ==> BlocksKept(fs.g, old(fs.inodes), old(fs.owner), fs.inodes, fs.owner)
    ensures forall j :: 0 <= j < fs.g.ninodes && j != dp && j != ip ==>
              fs.inodes[j] == old(fs.inodes)[j] && Bytes(fs, j) == old(Bytes(fs, j))
    ensures fs.inodes[ip].typ != 0 ==>
              && fs.inodes[ip] == old(fs.inodes)[ip].(nlink := fs.inodes[ip].nlink)
              && Bytes(fs, ip) == old(Bytes(fs, ip))
    ensures fs.inodes[ip].typ == 0 ==> Bytes(fs, ip) == []
    ensures fs.inodes[dp] == old(fs.inodes)[dp].(nlink := fs.inodes[dp].nlink, addrs := fs.inodes[dp].addrs)
  {
    hide AddressesOwned, OwnersHold, BitmapExact, FreeBlocksZero, Content, FileOk, DirOk, DotSlots, Dir, EntryKey,
         EntryInum, OtherFilesSame, HeldBy, FreeBlocks, Entries;
    ghost var v, key := View(fs), EntryKey(Bytes(fs, dp), off / ENTRY);
    assert DirFormed(fs.g, fs.disk, fs.inodes[dp]);
    var n := ClearEntry(fs, dp, off);
    if n != ENTRY {
      assert false;         // "unlink: writei"
    }
    if fs.inodes[ip].typ == T_DIR {
      SetLinks(fs, dp, fs.inodes[dp].nlink - 1);
    }
    SetLinks(fs, ip, fs.inodes[ip].nlink - 1);
    assert View(fs) == WithoutName(v, dp, key);
    ghost var d1, n1 := fs.disk, fs.inodes;
    var left := fs.Iput(ip, refs + 1);
    OneNodeChanged(fs.g, d1, n1, fs.disk, fs.inodes, ip);
    OthersAre(fs.g, d1, n1, fs.disk, fs.inodes, ip);
  }

  /** sys_unlink; `refs` counts the references to the named inode held elsewhere. */
  method Unlink(fs: Fs, parent: Option<nat>, name: seq<Byte>, refs: nat) returns (r: Outcome)
    requires Workable(fs) && IsParent(View(fs), parent)
    modifies fs
    ensures Workable(fs) && !r.Panicked?
    ensures r.Refused? ==> unchanged(fs)
    ensures old(UnlinkRefused(View(fs), parent, Key(name))) <==> r.Refused?
    ensures r.Done? ==> Unlinked(old(View(fs)), View(fs), parent.value, Key(name), refs)
    ensures old(Orderly(View(fs))) ==> Orderly(View(fs))
    ensures refs > 0 ==> BlocksKept(fs.g, old(fs.inodes), old(fs.owner), fs.inodes, fs.owner)
    // the parent loses an entry, the named inode a link and, when it is freed, its contents
    ensures r.Done? ==>
              && var dp, ip := parent.value, old(View(fs)[parent.value].entries[Key(name)]);
              && (forall j :: 0 <= j < fs.g.ninodes && j != dp && j != ip ==>
                 fs.inodes[j] == old(fs.inodes)[j] && Bytes(fs, j) == old(Bytes(fs, j)))
              && ip < fs.g.ninodes && old(fs.inodes)[ip].typ != 0
              && (fs.inodes[ip].typ != 0 ==>
                    && fs.inodes[ip] == old(fs.inodes)[ip].(nlink := fs.inodes[ip].nlink)
                    && Bytes(fs, ip) == old(Bytes(fs, ip)))
              && (fs.inodes[ip].typ == 0 ==> Bytes(fs, ip) == [])
              && fs.inodes[dp] == old(fs.inodes)[dp].(nlink := fs.inodes[dp].nlink, addrs := fs.inodes[dp].addrs)
    ensures r.Done? ==> FilesPlayed(old(Snap(fs)), Snap(fs), Unlinking(parent, name, refs))
  {
    hide AddressesOwned, OwnersHold, BitmapExact, FreeBlocksZero, Content, FileOk, DirOk, DotSlots, Dir, Key, EntryKey,
         EntryInum, OtherFilesSame, HeldBy, Sound, Orderly, FreeBlocks, FilesOf, FilesPlayed;
    ghost var v, key := View(fs), Key(name);
    ghost var d0, n0, f0 := fs.disk, fs.inodes, FreeBlocks(fs.g, fs.owner);
    DotKeys();
    if parent.None? {
      return Refused;
    }
    var dp := parent.value;
    var isDot := Namecmp(name, DOT);
    var isDotDot := false;
    if !isDot {
      isDotDot := Namecmp(name, DOTDOT);
    }
    if isDot || isDotDot {
      return Refused;
    }
    assert DirFormed(fs.g, fs.disk, fs.inodes[dp]);
    var found := Dirlookup(fs, dp, name);
    if found.Absent? {
      return Refused;
    }
    var ip := found.inum;
    NamedInode(v, dp, key);
    assert DirFormed(fs.g, fs.disk, fs.inodes[ip]);
    if fs.inodes[ip].nlink < 1 {
      assert false;         // "unlink: nlink < 1"
    }
    if fs.inodes[ip].typ == T_DIR {
      var empty := IsDirEmpty(fs, ip);
      if !empty {
        return Refused;
      }
    }
    NotADotSlot(Bytes(fs, dp), found.off, key);
    UnlinkedMeans(v, dp, key);
    TakeAway(fs, dp, found.off, ip, refs);
    ghost var w := WithoutName(v, dp, key);
    if refs == 0 && w[ip].nlink == 0 {
      FreedMeans(w, ip);
    }
    UnlinkPlayed(fs.g, d0, n0, fs.disk, fs.inodes, f0, FreeBlocks(fs.g, fs.owner), parent, name, refs, ip);
    return Done;
  }

  /** A live entry whose name is no dot is not one of the first two. */
  lemma NotADotSlot(c: seq<Byte>, off: nat, key: seq<Byte>)
    requires DotSlots(c) && off / ENTRY < Entries(c) && EntryKey(c, off / ENTRY) == key && key != DOT && key != DOTDOT
    ensures 2 <= off / ENTRY
  {
  }

  lemma EmptyDirectory()
    ensures DirOk([]) && Dir([]) == map[] && FirstFree([], 0) == 0
  {
  }

  /** The two entries of a new directory. */
  lemma DotsWritten(c1: seq<Byte>, c2: seq<Byte>, ip: nat, dp: nat)
    requires 0 < ip < 0x1_0000 && 0 < dp < 0x1_0000
    requires c1 == Overwritten([], 0, EntryBytes(DOT, ip))
    requires c2 == Overwritten(c1, ENTRY * FirstFree(c1, 0), EntryBytes(DOTDOT, dp))
    ensures DotSlots(c2)
  {
    hide Key, Overwritten, EntryKey;
    DotKeys();
    DotEntry([], 0, DOT, ip);
    assert EntryInum(c1, 0) == ip && Entries(c1) == 1;
    assert FirstFree(c1, 0) == FirstFree(c1, 1) == 1;
    DotEntry(c1, 1, DOTDOT, dp);
  }

  lemma DotEntry(c: seq<Byte>, f: nat, name: seq<Byte>, inum: nat)
    requires |c| % ENTRY == 0 && f == Entries(c) && 0 < inum < 0x1_0000
    ensures var d := Overwritten(c, ENTRY * f, EntryBytes(name, inum));
            && |d| == |c| + ENTRY && EntryInum(d, f) == inum && EntryKey(d, f) == Key(name) && SameBut(c, d, f)
  {
    EntryWritten(c, f, EntryBytes(name, inum));
    EntryParts(name, inum);
  }

  lemma SizeOfDots(c1: seq<Byte>, c2: seq<Byte>, ip: nat, dp: nat)
    requires 0 < ip < 0x1_0000 && 0 < dp < 0x1_0000
    requires c1 == Overwritten([], 0, EntryBytes(DOT, ip))
    ensures |c1| == ENTRY && FirstFree(c1, 0) == Entries(c1) == 1
    ensures c2 == Overwritten(c1, ENTRY, EntryBytes(DOTDOT, dp)) ==> |c2| == 2 * ENTRY
  {
    hide Key, Overwritten, EntryKey, EntryBytes;
    DotKeys();
    DotEntry([], 0, DOT, ip);
    assert FirstFree(c1, 0) == FirstFree(c1, 1) == 1;
    DotEntry(c1, 1, DOTDOT, dp);
  }

  ghost predicate EntriesSet(v: seq<Node>, v': seq<Node>, i: nat, entries: map<seq<Byte>, nat>) {
    i < |v| && v' == v[i := v[i].(entries := entries)]
  }

  /** The two entries of directory `ip`, which is empty: itself and its parent `dp`.  They need
      one block, so that the second always finds room beside the first. */
  method DotEntries(fs: Fs, ip: nat, dp: nat) returns (ok: bool)
    requires fs.Valid() && 0 < ip < fs.g.ninodes <= 0x1_0000 && 0 < dp < fs.g.ninodes
    requires fs.inodes[ip].typ == T_DIR && Bytes(fs, ip) == []
    requires OthersFormed(fs.g, fs.disk, fs.inodes, ip)
    modifies fs
    ensures fs.Valid() && OtherFilesSame(fs.g, old(fs.disk), old(fs.inodes), fs.disk, fs.inodes, ip)
    ensures fs.inodes[ip] == old(fs.inodes)[ip].(addrs := fs.inodes[ip].addrs, size := fs.inodes[ip].size)
    ensures ok ==> DirsFormed(fs.g, fs.disk, fs.inodes) && fs.inodes[ip].size == 2 * ENTRY
    ensures EntriesSet(old(View(fs)), View(fs), ip, if ok then map[DOT := ip, DOTDOT := dp] else map[])
    ensures ok <==> old(FreeBlocks(fs.g, fs.owner)) > 0
    ensures FreeBlocks(fs.g, fs.owner) == old(FreeBlocks(fs.g, fs.owner)) - if ok then 1 else 0
  {
    hide AddressesOwned, OwnersHold, BitmapExact, FreeBlocksZero, Content, FileOk, DirOk, DotSlots, Dir, Key, EntryKey,
         EntryInum, OtherFilesSame, EntryBytes, Overwritten, FreeBlocks;
    ghost var d0, n0 := fs.disk, fs.inodes;
    DotKeys();
    DotsDiffer();
    EmptyDirectory();
    EmptyCost(fs, ip);
    ok := false;
    var dot := Dirlink(fs, ip, DOT, ip);
    ghost var d1, n1, c1 := fs.disk, fs.inodes, Bytes(fs, ip);
    OneNodeChanged(fs.g, d0, n0, d1, n1, ip);
    if !dot.Linked? {
      return;
    }
    SizeOfDots(c1, [], ip, dp);
    NoCostInside(fs, ip);
    var dots := Dirlink(fs, ip, DOTDOT, dp);
    if !dots.Linked? {
      assert false;         // the second "create dots"
    }
    OneNodeChanged(fs.g, d1, n1, fs.disk, fs.inodes, ip);
    DotsWritten(c1, Bytes(fs, ip), ip, dp);
    SizeOfDots(c1, Bytes(fs, ip), ip, dp);
    FileSize(fs, ip);
    SameTwice(fs.g, d0, n0, d1, n1, fs.disk, fs.inodes, ip);
    return true;
  }

  lemma FileSize(fs: Fs, i: nat)
    requires fs.Valid() && i < fs.g.ninodes
    ensures |Bytes(fs, i)| == fs.inodes[i].size
  {
  }

  /** The first entry of an empty directory takes one block. */
  lemma EmptyCost(fs: Fs, ip: nat)
    requires fs.Valid() && ip < fs.g.ninodes && Bytes(fs, ip) == []
    ensures EntryCost(fs, ip) == 1 && fs.inodes[ip].size == 0
  {
    hide Content, FileOk, EntryInum;
    FileSize(fs, ip);
  }

  lemma NoCostInside(fs: Fs, ip: nat)
    requires fs.Valid() && ip < fs.g.ninodes && |Bytes(fs, ip)| % BSIZE != 0
    ensures EntryCost(fs, ip) == 0
  {
    hide Content, FileOk, EntryInum;
    FileSize(fs, ip);
  }

  lemma SameTwice(g: Geometry, d0: seq<Block>, n0: seq<Inode>, d1: seq<Block>, n1: seq<Inode>, d2: seq<Block>,
                  n2: seq<Inode>, i: nat)
    requires Shaped(g, d0) && TableShaped(g, n0) && Shaped(g, d1) && TableShaped(g, n1) && Shaped(g, d2)
        && TableShaped(g, n2)
    requires FilesOk(g, d0, n0) && FilesOk(g, d1, n1) && FilesOk(g, d2, n2)
    requires OtherFilesSame(g, d0, n0, d1, n1, i) && OtherFilesSame(g, d1, n1, d2, n2, i)
    ensures OtherFilesSame(g, d0, n0, d2, n2, i)
  {
    hide Content, FilesOk;
  }

  ghost predicate DotsAdded(v: seq<Node>, v': seq<Node>, ip: nat, dp: nat) {
    && ip < |v| && dp < |v|
    && v' == v[dp := v[dp].(nlink := v[dp].nlink + 1)][ip := v[ip].(entries := map[DOT := ip, DOTDOT := dp])]
  }

  /** Gives a new directory its dots and its parent the link for "..". */
  method MakeDots(fs: Fs, ip: nat, dp: nat) returns (ok: bool)
    requires fs.Valid() && 0 < ip < fs.g.ninodes <= 0x1_0000 && 0 < dp < fs.g.ninodes && ip != dp
    requires fs.inodes[ip].typ == T_DIR && Bytes(fs, ip) == []
    requires OthersFormed(fs.g, fs.disk, fs.inodes, ip)
    modifies fs
    ensures fs.Valid() && fs.inodes[dp] == old(fs.inodes[dp]).(nlink := fs.inodes[dp].nlink)
    ensures forall j :: 0 <= j < fs.g.ninodes && j != ip ==> Bytes(fs, j) == old(Bytes(fs, j))
    ensures forall j :: 0 <= j < fs.g.ninodes && j != ip && j != dp ==> fs.inodes[j] == old(fs.inodes)[j]
    ensures fs.inodes[ip] == old(fs.inodes)[ip].(addrs := fs.inodes[ip].addrs, size := fs.inodes[ip].size)
    ensures ok <==> old(FreeBlocks(fs.g, fs.owner)) > 0
    ensures FreeBlocks(fs.g, fs.owner) == old(FreeBlocks(fs.g, fs.owner)) - if ok then 1 else 0
    ensures ok ==> fs.inodes[ip].size == 2 * ENTRY && DotsAdded(old(View(fs)), View(fs), ip, dp)
    ensures ok ==> DirsFormed(fs.g, fs.disk, fs.inodes)
  {
    hide AddressesOwned, OwnersHold, BitmapExact, FreeBlocksZero, Content, FileOk, Dir, DirFormed, FreeBlocks;
    ghost var v := View(fs);
    SetLinks(fs, dp, fs.inodes[dp].nlink + 1);
    assert OthersFormed(fs.g, fs.disk, fs.inodes, ip);
    ghost var d1, n1 := fs.disk, fs.inodes;
    ok := DotEntries(fs, ip, dp);
    OthersAre(fs.g, d1, n1, fs.disk, fs.inodes, ip);
  }

  /** A free inode taken, with one link and nothing in it. */
  method NewInode(fs: Fs, typ: int, major: int, minor: int) returns (inum: int)
    requires fs.Valid() && DirsFormed(fs.g, fs.disk, fs.inodes) && typ != 0
    modifies fs
    ensures fs.Valid() && (inum == -1 || 0 < inum < fs.g.ninodes)
    ensures inum == -1 <==> old(NoInode(fs))
    ensures inum == -1 ==> unchanged(fs)
    ensures fs.owner == old(fs.owner) && fs.disk == old(fs.disk)
    ensures inum != -1 ==>
              && (forall j :: 1 <= j < inum ==> old(fs.inodes)[j].typ != 0)
              && (forall j :: 0 <= j < fs.g.ninodes && j != inum ==> fs.inodes[j] == old(fs.inodes)[j])
              && fs.inodes[inum].size == 0
              && old(View(fs))[inum].typ == 0 && View(fs) == old(View(fs))[inum := Node(typ, 1, map[])]
              && fs.inodes[inum].typ == typ && fs.inodes[inum].major == major && fs.inodes[inum].minor == minor
              && Bytes(fs, inum) == [] && fs.inodes[inum].nlink == 1
              && OthersFormed(fs.g, fs.disk, fs.inodes, inum)
              && (typ != T_DIR ==> DirsFormed(fs.g, fs.disk, fs.inodes))
  {
    hide AddressesOwned, OwnersHold, BitmapExact, FreeBlocksZero, Content, FileOk, DirOk, DotSlots, Dir;
    ghost var d0, n0 := fs.disk, fs.inodes;
    inum := fs.Ialloc(typ);
    if inum == -1 {
      return;
    }
    var ip: nat := inum;
    EmptyInode(fs.g, fs.disk, fs.inodes[ip]);
    EmptyDirectory();
    OneNodeChanged(fs.g, d0, n0, fs.disk, fs.inodes, ip);
    Relabelled(fs.g, fs.disk, fs.inodes, fs.owner, ip, fs.inodes[ip].(major := major, minor := minor, nlink := 1));
    ghost var d1, n1 := fs.disk, fs.inodes;
    fs.inodes := fs.inodes[ip := fs.inodes[ip].(major := major, minor := minor, nlink := 1)];
    OneNodeChanged(fs.g, d1, n1, fs.disk, fs.inodes, ip);
  }

  /** Inode `ip` is taken, with its dots and the link they are to `dp` if it is a directory. */
  ghost predicate NodeAdded(v: seq<Node>, v': seq<Node>, dp: nat, typ: int, ip: nat) {
    && dp < |v| && ip < |v| && v[ip].typ == 0
    && v' == v[dp := v[dp].(nlink := v[dp].nlink + if typ == T_DIR then 1 else 0)]
              [ip := Node(typ, 1, if typ == T_DIR then map[DOT := ip, DOTDOT := dp] else map[])]
  }

  /** A new inode, which has its dots if it is a directory; -1 where the source panics. */
  method NewFile(fs: Fs, dp: nat, typ: int, major: int, minor: int) returns (inum: int)
    requires fs.Valid() && DirsFormed(fs.g, fs.disk, fs.inodes) && typ != 0
    requires 0 < dp < fs.g.ninodes <= 0x1_0000 && fs.inodes[dp].typ == T_DIR
    modifies fs
    ensures fs.Valid() && (inum == -1 || 0 < inum < fs.g.ninodes)
    ensures inum == -1 <==> old(NoInode(fs) || (typ == T_DIR && FreeBlocks(fs.g, fs.owner) == 0))
    ensures inum == -1 ==> NoInode(fs) || FreeBlocks(fs.g, fs.owner) == 0
    ensures fs.inodes[dp] == old(fs.inodes)[dp].(nlink := fs.inodes[dp].nlink) && Bytes(fs, dp) == old(Bytes(fs, dp))
    ensures forall j :: 0 <= j < fs.g.ninodes && j != dp ==>
              (if inum != -1 then j != inum else old(fs.inodes)[j].typ != 0) ==>
              fs.inodes[j] == old(fs.inodes)[j] && Bytes(fs, j) == old(Bytes(fs, j))
    ensures inum != -1 ==>
              && var ip, dir := fs.inodes[inum], typ == T_DIR;
              && ip == Inode(typ, major, minor, 1, if dir then 2 * ENTRY else 0, ip.addrs)
              && (!dir ==> Bytes(fs, inum) == []) && (forall j :: 1 <= j < inum ==> old(fs.inodes)[j].typ != 0)
              && FreeBlocks(fs.g, fs.owner) == old(FreeBlocks(fs.g, fs.owner)) - if dir then 1 else 0
    ensures inum != -1 ==> NodeAdded(old(View(fs)), View(fs), dp, typ, inum)
    ensures inum != -1 ==> DirsFormed(fs.g, fs.disk, fs.inodes)
  {
    hide AddressesOwned, OwnersHold, BitmapExact, FreeBlocksZero, Content, FileOk, DirOk, DotSlots, Dir, NoInode,
         FreeBlocks, OthersFormed, DirsFormed;
    inum := NewInode(fs, typ, major, minor);
    if inum != -1 && typ == T_DIR {
      var ok := MakeDots(fs, inum, dp);
      if !ok {
        return -1;
      }
    }
  }

  /** The cost of an entry depends on the directory's contents, size and addresses only. */
  lemma SameEntryCost(a: Inode, b: Inode, cap: nat)
    requires a.addrs == b.addrs && |a.addrs| == NDIRECT + 1
    ensures Cost(a, cap, cap + 1) == Cost(b, cap, cap + 1)
  {
  }

  /** create: a new inode of type `typ` under a name, or the file already there. */
  method Create(fs: Fs, parent: Option<nat>, name: seq<Byte>, typ: int, major: int, minor: int) returns (r: Creation)
    requires Workable(fs) && typ != 0 && IsParent(View(fs), parent)
    modifies fs
    ensures fs.Valid() && (!r.Stuck? ==> Workable(fs))
    ensures r.Stuck? <==> parent.Some? && old(CreatePanics(fs, parent.value, Key(name), typ))
    ensures r.Stuck? ==> NoRoom(fs) || Dangles(View(fs), parent.value, Key(name))
    ensures r.Failed? || r.Opened? ==> unchanged(fs)
    ensures CreateAnswers(old(View(fs)), parent, Key(name), typ, r)
    ensures r.Made? ==> Created(old(View(fs)), View(fs), parent, Key(name), typ, r.inum)
    ensures r.Made? && old(Orderly(View(fs))) ==>
              && (Orderly(View(fs)) <==> !DeadParent(old(View(fs)), parent))
              && (Consistent(View(fs)) <==> !DeadParent(old(View(fs)), parent))
    ensures r.Made? ==>
              FreeBlocks(fs.g, fs.owner) + (if typ == T_DIR then 1 else 0) + old(EntryCost(fs, parent.value))
              == old(FreeBlocks(fs.g, fs.owner))
    ensures r.Made? && typ == T_DIR ==> fs.inodes[r.inum].size == 2 * ENTRY
    // the first free inode gets what was asked for; of the others only the parent changes
    ensures r.Made? ==>
              && (forall j :: 1 <= j < r.inum ==> old(fs.inodes)[j].typ != 0)
              && var ip := fs.inodes[r.inum];
              && ip == Inode(typ, major, minor, 1, ip.size, ip.addrs) && (typ != T_DIR ==> Bytes(fs, r.inum) == [])
    ensures forall j :: 0 <= j < fs.g.ninodes && Some(j) != parent ==>
              (if r.Made? then j != r.inum else old(fs.inodes)[j].typ != 0) ==>
                fs.inodes[j] == old(fs.inodes)[j] && Bytes(fs, j) == old(Bytes(fs, j))
    ensures parent.Some? ==>
              && var dp := parent.value;
              && fs.inodes[dp] == old(fs.inodes)[dp].(nlink := fs.inodes[dp].nlink, addrs := fs.inodes[dp].addrs,
                                                      size := fs.inodes[dp].size)
              && (!r.Made? ==> Bytes(fs, dp) == old(Bytes(fs, dp)))
    ensures r.Made? ==> FilesPlayed(old(Snap(fs)), Snap(fs), Creating(parent, name, typ, major, minor))
  {
    hide AddressesOwned, OwnersHold, BitmapExact, FreeBlocksZero, Content, FileOk, DirOk, DotSlots, Dir, Sound, Key,
         EntryKey, EntryInum, OtherFilesSame, NoInode, FreeBlocks, Orderly, Cost, FirstFree, OthersFormed,
         FilesOf, FilesPlayed;
    ghost var v, key := View(fs), Key(name);
    ghost var d0, n0, f0 := fs.disk, fs.inodes, FreeBlocks(fs.g, fs.owner);
    if parent.None? {
      return Failed;
    }
    var dp := parent.value;
    assert DirFormed(fs.g, fs.disk, fs.inodes[dp]);
    var found := Dirlookup(fs, dp, name);
    if found.Found? {
      EntryInRange(v, dp, key);
      if fs.inodes[found.inum].typ == 0 {
        return Stuck;       // "ilock: no type"
      }
      if typ == T_FILE && fs.inodes[found.inum].typ == T_FILE {
        return Opened(found.inum);
      }
      return Failed;
    }
    DotsKnown(v, dp, key);
    ghost var ip0 := fs.inodes[dp];
    var inum := NewFile(fs, dp, typ, major, minor);
    if inum == -1 {
      return Stuck;
    }
    var ip: nat := inum;
    assert View(fs)[dp].typ == v[dp].typ;
    assert DirFormed(fs.g, fs.disk, fs.inodes[dp]);
    SameEntryCost(ip0, fs.inodes[dp], ip0.size / BSIZE);
    assert EntryCost(fs, dp) == old(EntryCost(fs, dp));
    var linked := AddName(fs, dp, name, ip);
    if !linked.Linked? {
      assert CannotAdd(fs, dp);
      return Stuck;
    }
    assert Created(v, View(fs), parent, key, typ, ip);
    CreatedMeans(v, View(fs), parent, key, typ, ip);
    CreatePlayed(fs.g, d0, n0, fs.disk, fs.inodes, f0, FreeBlocks(fs.g, fs.owner), parent, name, typ, major, minor,
                 ip);
    return Made(ip);
  }

  lemma EmptyInode(g: Geometry, disk: seq<Block>, ip: Inode)
    requires Shaped(g, disk) && InodeShaped(g, ip) && ip.size == 0
    ensures Content(g, disk, ip) == []
  {
  }

  lemma EntryInRange(v: seq<Node>, dp: nat, key: seq<Byte>)
    requires Sound(v) && dp < |v| && key in v[dp].entries
    ensures v[dp].entries[key] < |v|
  {
    assert SoundNode(v, dp);
    assert key != DOT && key != DOTDOT ==> key in v[dp].Proper();
  }

  /** The last reference to inode `i` is dropped, as when a file that was unlinked is closed. */
  method Release(fs: Fs, i: nat)
    requires Workable(fs) && i < fs.g.ninodes && fs.inodes[i].typ != 0
    modifies fs
    ensures Workable(fs) && (old(Orderly(View(fs))) ==> Orderly(View(fs)))
    ensures View(fs) == if old(View(fs))[i].nlink == 0 then old(View(fs))[i := Node(0, 0, map[])] else old(View(fs))
    ensures old(fs.inodes)[i].nlink != 0 ==> unchanged(fs)
    ensures old(fs.inodes)[i].nlink == 0 ==> fs.inodes[i].typ == 0 && Bytes(fs, i) == []
    ensures forall j :: 0 <= j < fs.g.ninodes && j != i ==>
              fs.inodes[j] == old(fs.inodes)[j] && Bytes(fs, j) == old(Bytes(fs, j))
    ensures FilesPlayed(old(Snap(fs)), Snap(fs), Releasing(i))
  {
    hide AddressesOwned, OwnersHold, BitmapExact, FreeBlocksZero, Content, FileOk, DirOk, DotSlots, Dir, OtherFilesSame,
         HeldBy, Sound, Orderly, FilesOf, FilesPlayed, FreeBlocks;
    ghost var v, d0, n0, f0 := View(fs), fs.disk, fs.inodes, FreeBlocks(fs.g, fs.owner);
    var left := fs.Iput(i, 1);
    OneNodeChanged(fs.g, d0, n0, fs.disk, fs.inodes, i);
    OthersAre(fs.g, d0, n0, fs.disk, fs.inodes, i);
    ReleasePlayed(fs.g, d0, n0, fs.disk, fs.inodes, f0, FreeBlocks(fs.g, fs.owner), i);
    if v[i].nlink == 0 {
      FreedMeans(v, i);
    }
  }

  /** A write to a file that is open: no name, link or directory changes. */
  method Write(fs: Fs, i: nat, src: seq<Byte>, off: nat, driver: map<int, int>) returns (n: int)
    requires Workable(fs) && i < fs.g.ninodes && fs.inodes[i].typ != 0 && fs.inodes[i].typ != T_DIR
    requires off < TWO_32 && |src| < TWO_32
    modifies fs
    ensures Workable(fs) && View(fs) == old(View(fs))
    ensures forall j :: 0 <= j < fs.g.ninodes && j != i ==>
              fs.inodes[j] == old(fs.inodes)[j] && Bytes(fs, j) == old(Bytes(fs, j))
    ensures fs.inodes[i] == old(fs.inodes)[i].(addrs := fs.inodes[i].addrs, size := fs.inodes[i].size)
    ensures fs.inodes[i].typ == T_DEV ==> n == DeviceAnswer(driver, fs.inodes[i].major)
    ensures fs.inodes[i].typ == T_DEV || Misplaced(old(fs.inodes)[i].size, off, |src|) ==> unchanged(fs)
    ensures fs.inodes[i].typ != T_DEV ==>
              if Misplaced(old(fs.inodes)[i].size, off, |src|) then n == -1
              else
                && 0 <= n <= WriteRoom(off, |src|)
                && Bytes(fs, i) == Overwritten(old(Bytes(fs, i)), off, src[..n])
                && (n < WriteRoom(off, |src|) <==>
                    old(FreeBlocks(fs.g, fs.owner)) < WriteCost(old(fs.inodes)[i], off + WriteRoom(off, |src|)))
    ensures FilesPlayed(old(Snap(fs)), Snap(fs), Writing(i, src, off, driver))
  {
    hide AddressesOwned, OwnersHold, BitmapExact, FreeBlocksZero, Content, FileOk, DirOk, DotSlots, Dir, OtherFilesSame,
         Sound, FreeBlocks, WriteCost, Overwritten, FilesOf, FilesPlayed;
    ghost var d0, n0, f0 := fs.disk, fs.inodes, FreeBlocks(fs.g, fs.owner);
    n := fs.Writei(i, src, off, driver);
    assert DirFormed(fs.g, fs.disk, fs.inodes[i]);
    OneNodeChanged(fs.g, d0, n0, fs.disk, fs.inodes, i);
    OthersAre(fs.g, d0, n0, fs.disk, fs.inodes, i);
    assert View(fs) == old(View(fs));
    assert FileOk(fs.g, d0, n0[i]);
    WritePlayed(fs.g, d0, n0, fs.disk, fs.inodes, f0, FreeBlocks(fs.g, fs.owner), i, src, off, driver, n);
  }

  // ----- runs

  /** The arguments are inodes that path resolution, or an open file, can stand for. */
  ghost predicate Findable(v: seq<Node>, c: Call) {
    match c
    case Linking(ip, parent, _) => 0 < ip < |v| && v[ip].typ != 0 && IsParent(v, parent)
    case Unlinking(parent, _, _) => IsParent(v, parent)
    case Creating(parent, _, typ, _, _) => typ != 0 && IsParent(v, parent)
    case Releasing(ip) => ip < |v| && v[ip].typ != 0
    case Writing(ip, src, off, _) => ip < |v| && v[ip].typ != 0 && v[ip].typ != T_DIR && off < TWO_32 && |src| < TWO_32
  }

  /** What a call that does not panic does to the nodes: nothing when it is refused, else what its
      kind says. */
  ghost predicate Played(v: seq<Node>, v': seq<Node>, c: Call) {
    match c
    case Linking(ip, parent, name) =>
      if LinkRefused(v, ip, parent, Key(name)) then v' == v else Linked(v, v', ip, parent, Key(name))
    case Unlinking(parent, name, refs) =>
      if UnlinkRefused(v, parent, Key(name)) then v' == v else Unlinked(v, v', parent.value, Key(name), refs)
    case Creating(parent, name, typ, _, _) =>
      if parent.None? || parent.value >= |v| || Key(name) in v[parent.value].entries then v' == v
      else exists ip: nat :: Created(v, v', parent, Key(name), typ, ip)
    case Releasing(ip) =>
      v' == if ip < |v| && v[ip].nlink == 0 then v[ip := Node(0, 0, map[])] else v
    case Writing(_, _, _, _) => v' == v
  }

  /** The call puts a name into a directory that is unlinked. */
  ghost predicate Strays(v: seq<Node>, c: Call) {
    && Findable(v, c)
    && match c
       case Linking(ip, parent, name) => !LinkRefused(v, ip, parent, Key(name)) && DeadParent(v, parent)
       case Creating(parent, name, _, _, _) =>
         parent.Some? && parent.value < |v| && Key(name) !in v[parent.value].entries && DeadParent(v, parent)
       case _ => false
  }

  /** When a call panics. */
  ghost predicate Panics(fs: Fs, c: Call)
    requires fs.Valid()
    reads fs
  {
    && Findable(View(fs), c)
    && match c
       case Linking(ip, parent, name) =>
         !LinkRefused(View(fs), ip, parent, Key(name)) && NoRoomIn(fs, parent.value, 0)
       case Creating(parent, name, typ, _, _) => parent.Some? && CreatePanics(fs, parent.value, Key(name), typ)
       case _ => false
  }

  /** ".." somewhere names a free inode. */
  ghost predicate ParentLost(v: seq<Node>) {
    exists dp: nat, key :: Dangles(v, dp, key)
  }

  /** One call, if it can be made: arguments that cannot be found are passed over. */
  method Perform(fs: Fs, c: Call) returns (panicked: bool)
    requires Workable(fs)
    modifies fs
    ensures fs.Valid() && (panicked <==> old(Panics(fs, c)))
    ensures if panicked then NoRoom(fs) || ParentLost(View(fs)) else Workable(fs)
    ensures !panicked ==>
        if Findable(old(View(fs)), c) then Played(old(View(fs)), View(fs), c) else View(fs) == old(View(fs))
    ensures !panicked && old(Orderly(View(fs))) ==> (Orderly(View(fs)) <==> !Strays(old(View(fs)), c))
    ensures !panicked ==>
        if Findable(old(View(fs)), c) then FilesPlayed(old(Snap(fs)), Snap(fs), c) else Snap(fs) == old(Snap(fs))
  {
    hide Content, Sound, Orderly, DirFormed, NoRoomIn, NoInode, FreeBlocks, NoRoom, CreatePanics, OtherFilesSame;
    hide FilesOf, FilesPlayed;
    ghost var w := Snap(fs);
    panicked := false;
    match c
    case Linking(ip, parent, name) =>
      if 0 < ip < |fs.inodes| && fs.inodes[ip].typ != 0 && Resolved(fs, parent) {
        var r := Link(fs, ip, parent, name);
        panicked := r.Panicked?;
        NothingPlayed(w, c);
      }
    case Unlinking(parent, name, refs) =>
      if Resolved(fs, parent) {
        var _ := Unlink(fs, parent, name, refs);
        NothingPlayed(w, c);
      }
    case Creating(parent, name, typ, major, minor) =>
      if typ != 0 && Resolved(fs, parent) {
        var r := Create(fs, parent, name, typ, major, minor);
        panicked := r.Stuck?;
        NothingPlayed(w, c);
      }
    case Releasing(ip) =>
      if ip < |fs.inodes| && fs.inodes[ip].typ != 0 {
        Release(fs, ip);
      }
    case Writing(ip, src, off, driver) =>
      if ip < |fs.inodes| && fs.inodes[ip].typ != 0 && fs.inodes[ip].typ != T_DIR && off < TWO_32 && |src| < TWO_32 {
        var _ := Write(fs, ip, src, off, driver);
      }
  }

  predicate Resolved(fs: Fs, parent: Option<nat>)
    reads fs
  {
    parent.Some? ==> parent.value < |fs.inodes| && fs.inodes[parent.value].typ == T_DIR
  }

  /** Any sequence of calls, in any directories.  No name but the dots ever comes to be of a free
      inode and no inode to have fewer links than names; from an orderly volume the link counts stay the
      numbers of names, and the directories a tree, exactly as long as no call strays into an
      unlinked directory.  The run ends early only in a panic; `views` are the nodes and `snaps` the
      files before and after each call that returned. */
  method Run(fs: Fs, calls: seq<Call>)
    returns (panicked: bool, ghost views: seq<seq<Node>>, ghost snaps: seq<Snapshot>)
    requires Workable(fs)
    modifies fs
    ensures fs.Valid() && if panicked then NoRoom(fs) || ParentLost(View(fs)) else Workable(fs)
    ensures 0 < |views| <= |calls| + 1 && views[0] == old(View(fs))
    ensures !panicked ==> |views| == |calls| + 1 && views[|calls|] == View(fs)
    ensures forall k :: 0 <= k < |views| - 1 ==>
              if Findable(views[k], calls[k]) then Played(views[k], views[k + 1], calls[k])
                  else views[k + 1] == views[k]
    ensures |snaps| == |views| && snaps[0] == old(Snap(fs)) && (!panicked ==> snaps[|calls|] == Snap(fs))
    ensures forall k :: 0 <= k < |views| ==> views[k] == NodesOf(snaps[k])
    ensures forall k :: 0 <= k < |views| - 1 ==>
              if Findable(views[k], calls[k]) then FilesPlayed(snaps[k], snaps[k + 1], calls[k])
                  else snaps[k + 1] == snaps[k]
    ensures forall k :: 0 <= k < |views| ==> Sound(views[k])
    ensures old(Orderly(View(fs))) ==>
              ((forall k :: 0 <= k < |views| ==> Orderly(views[k])) <==>
               (forall k :: 0 <= k < |views| - 1 ==> !Strays(views[k], calls[k])))
  {
    hide Orderly, Sound, DirsFormed, Content, NoRoom, Played, Findable, Strays, Panics, FilesPlayed, NodesOf, FilesOf,
         FreeBlocks;
    panicked := false;
    views, snaps := [View(fs)], [Snap(fs)];
    SnapShowsNodes(fs);
    for k := 0 to |calls|
      invariant fs.Valid() && !panicked && Workable(fs)
      invariant |views| == k + 1 && views[0] == old(View(fs)) && views[k] == View(fs)
      invariant forall i :: 0 <= i < k ==>
                  if Findable(views[i], calls[i]) then Played(views[i], views[i + 1], calls[i])
                      else views[i + 1] == views[i]
      invariant |snaps| == k + 1 && snaps[0] == old(Snap(fs)) && snaps[k] == Snap(fs)
      invariant forall i :: 0 <= i <= k ==> views[i] == NodesOf(snaps[i])
      invariant forall i :: 0 <= i < k ==>
                  if Findable(views[i], calls[i]) then FilesPlayed(snaps[i], snaps[i + 1], calls[i])
                      else snaps[i + 1] == snaps[i]
      invariant forall i :: 0 <= i <= k ==> Sound(views[i])
      invariant forall i :: 0 <= i < k && Orderly(views[i]) ==> (Orderly(views[i + 1]) <==> !Strays(views[i], calls[i]))
    {
      panicked := Perform(fs, calls[k]);
      if panicked {
        InOrder(views, calls);
        return;
      }
      views, snaps := views + [View(fs)], snaps + [Snap(fs)];
      SnapShowsNodes(fs);
    }
    InOrder(views, calls);
  }

  lemma {:induction false} InOrderUpTo(views: seq<seq<Node>>, calls: seq<Call>, n: nat)
    requires n < |views| <= |calls| + 1 && Orderly(views[0])
    requires forall i :: 0 <= i < |views| - 1 && Orderly(views[i]) ==>
        (Orderly(views[i + 1]) <==> !Strays(views[i], calls[i]))
    requires forall i :: 0 <= i < |views| - 1 ==> !Strays(views[i], calls[i])
    ensures Orderly(views[n])
  {
    hide Orderly, Strays;
    if n > 0 {
      InOrderUpTo(views, calls, n - 1);
    }
  }

  lemma InOrder(views: seq<seq<Node>>, calls: seq<Call>)
    requires 0 < |views| <= |calls| + 1
    requires forall i :: 0 <= i < |views| - 1 && Orderly(views[i]) ==>
        (Orderly(views[i + 1]) <==> !Strays(views[i], calls[i]))
    ensures Orderly(views[0]) ==>
              ((forall k :: 0 <= k < |views| ==> Orderly(views[k])) <==>
               (forall k :: 0 <= k < |views| - 1 ==> !Strays(views[k], calls[k])))
  {
    hide Orderly, Strays;
    if Orderly(views[0]) && forall k :: 0 <= k < |views| - 1 ==> !Strays(views[k], calls[k]) {
      forall n | 0 <= n < |views|
        ensures Orderly(views[n])
      {
        InOrderUpTo(views, calls, n);
      }
    }
    if Orderly(views[0]) && forall k :: 0 <= k < |views| ==> Orderly(views[k]) {
      forall k | 0 <= k < |views| - 1
        ensures !Strays(views[k], calls[k])
      {
        assert Orderly(views[k]) && Orderly(views[k + 1]);
      }
    }
  }

  /** mkfs: a volume with a root directory and nothing else.  Its dots take one block. */
  method Format(g: Geometry) returns (fs: Fs)
    requires g.Ok() && 1 < g.ninodes <= 0x1_0000 && g.DataStart() < g.size
    ensures fresh(fs) && fs.g == g && Sane(fs) && OnlyRoot(View(fs))
    ensures FreeBlocks(g, fs.owner) == g.size - g.DataStart() - 1 && fs.inodes[ROOTINO].size == 2 * ENTRY
  {
    hide AddressesOwned, OwnersHold, BitmapExact, FreeBlocksZero, Content, FileOk, Dir, Orderly, Sound, DirFormed,
         Geometry.Ok, Geometry.DataStart, FreeBlocks;
    fs := new Fs(g);
    FreeIsFormed(fs);
    var inum := NewInode(fs, T_DIR, 0, 0);
    assert fs.inodes[ROOTINO].typ == T_DIR;
    var ok := DotEntries(fs, ROOTINO, ROOTINO);
    FreshIsOrderly(View(fs));
  }

  /** There is a root directory and all other inodes are free. */
  ghost predicate OnlyRoot(v: seq<Node>) {
    && ROOTINO < |v| && v[ROOTINO] == Node(T_DIR, 1, map[DOT := ROOTINO, DOTDOT := ROOTINO])
    && forall i :: 0 <= i < |v| && i != ROOTINO ==> v[i] == Node(0, 0, map[])
  }

  lemma FreshIsOrderly(v: seq<Node>)
    requires OnlyRoot(v)
    ensures Sound(v) && Orderly(v)
  {
    FreshIsConsistent(v, ROOTINO);
  }

  lemma FreeIsFormed(fs: Fs)
    requires fs.Valid() && forall i :: 0 <= i < fs.g.ninodes ==> fs.inodes[i] == FreeInode()
    ensures DirsFormed(fs.g, fs.disk, fs.inodes)
    ensures forall i :: 0 <= i < fs.g.ninodes ==> View(fs)[i] == Node(0, 0, map[])
  {
  }
}
