/** Directories of kernel/fs.c: files of 16-byte entries, read as finite maps from names
    to inode numbers.  A name counts up to its first NUL, and no further than 14 bytes. */
module Directory {
  import opened Volume
  import opened FileSystem

  const DIRSIZ := 14
  const ENTRY := 16            // sizeof(struct dirent): a 16-bit inode number and the name

  // ----- names

  /** Byte `i` of a C string: what follows the last byte is NUL. */
  function CharAt(s: seq<Byte>, i: nat): Byte {
    if i < |s| then s[i] else 0
  }

  /** The part of a name that counts, from byte `i` on. */
  function KeyFrom(s: seq<Byte>, i: nat): seq<Byte>
    requires i <= DIRSIZ
    decreases DIRSIZ - i
  {
    if i == DIRSIZ || CharAt(s, i) == 0 then [] else [CharAt(s, i)] + KeyFrom(s, i + 1)
  }

  function Key(s: seq<Byte>): seq<Byte> {
    KeyFrom(s, 0)
  }

  /** namecmp, with strncmp's loop. */
  method Namecmp(s: seq<Byte>, t: seq<Byte>) returns (equal: bool)
    ensures equal <==> Key(s) == Key(t)
  {
    var i := 0;
    while i < DIRSIZ && CharAt(s, i) != 0 && CharAt(s, i) == CharAt(t, i)
      invariant i <= DIRSIZ
      invariant Key(s) == Key(t) <==> KeyFrom(s, i) == KeyFrom(t, i)
      decreases DIRSIZ - i
    {
      assert KeyFrom(s, i)[1..] == KeyFrom(s, i + 1) && KeyFrom(t, i)[1..] == KeyFrom(t, i + 1);
      i := i + 1;
    }
    if i == DIRSIZ {
      return true;
    }
    assert CharAt(s, i) != 0 ==> KeyFrom(s, i) != [] && KeyFrom(s, i)[0] == CharAt(s, i);
    assert CharAt(t, i) != 0 ==> KeyFrom(t, i) != [] && KeyFrom(t, i)[0] == CharAt(t, i);
    return CharAt(s, i) == CharAt(t, i);
  }

  /** What strncpy(de.name, name, DIRSIZ) leaves in the 14 bytes. */
  function Padded(name: seq<Byte>): (p: seq<Byte>)
    ensures |p| == DIRSIZ
  {
    PaddedFrom(name, 0)
  }

  function PaddedFrom(name: seq<Byte>, i: nat): (p: seq<Byte>)
    requires i <= DIRSIZ
    ensures |p| == DIRSIZ - i
    decreases DIRSIZ - i
  {
    if i == DIRSIZ then []
    else if CharAt(name, i) == 0 then Zeros(DIRSIZ - i)
    else [name[i]] + PaddedFrom(name, i + 1)
  }

  lemma {:induction false} PaddedKeyFrom(s: seq<Byte>, name: seq<Byte>, i: nat)
    requires i <= DIRSIZ && |s| == DIRSIZ && s[i..] == PaddedFrom(name, i)
    ensures KeyFrom(s, i) == KeyFrom(name, i)
    decreases DIRSIZ - i
  {
    if i < DIRSIZ {
      assert s[i] == s[i..][0];
      if CharAt(name, i) != 0 {
        assert s[i + 1..] == s[i..][1..];
        PaddedKeyFrom(s, name, i + 1);
      }
    }
  }

  lemma PaddedKey(name: seq<Byte>)
    ensures Key(Padded(name)) == Key(name)
  {
    assert Padded(name)[0..] == PaddedFrom(name, 0);
    PaddedKeyFrom(Padded(name), name, 0);
  }

  // ----- entries

  function Entries(c: seq<Byte>): nat {
    |c| / ENTRY
  }

  function EntryInum(c: seq<Byte>, k: nat): nat
    requires k < Entries(c)
  {
    (c[ENTRY * k] as int) + 0x100 * (c[ENTRY * k + 1] as int)
  }

  function EntryKey(c: seq<Byte>, k: nat): seq<Byte>
    requires k < Entries(c)
  {
    Key(c[ENTRY * k + 2..ENTRY * k + ENTRY])
  }

  /** The first `n` entries as a map; entries with inode number 0 are free. */
  ghost function DirUpTo(c: seq<Byte>, n: nat): map<seq<Byte>, nat>
    requires n <= Entries(c)
  {
    if n == 0 then map[]
    else if EntryInum(c, n - 1) == 0 then DirUpTo(c, n - 1)
    else DirUpTo(c, n - 1)[EntryKey(c, n - 1) := EntryInum(c, n - 1)]
  }

  /** A directory's contents as a map. */
  ghost function Dir(c: seq<Byte>): map<seq<Byte>, nat> {
    DirUpTo(c, Entries(c))
  }

  /** Whole entries, and at most one live entry for a name. */
  ghost predicate DirOk(c: seq<Byte>) {
    && |c| % ENTRY == 0
    && forall k, l :: 0 <= k < l < Entries(c) && EntryInum(c, k) != 0 && EntryInum(c, l) != 0 ==>
       EntryKey(c, k) != EntryKey(c, l)
  }

  lemma {:induction false} DirUpToMember(c: seq<Byte>, n: nat, key: seq<Byte>)
    requires DirOk(c) && n <= Entries(c)
    ensures key in DirUpTo(c, n) <==> exists k :: 0 <= k < n && EntryInum(c, k) != 0 && EntryKey(c, k) == key
    ensures forall k :: 0 <= k < n && EntryInum(c, k) != 0 && EntryKey(c, k) == key ==>
              key in DirUpTo(c, n) && DirUpTo(c, n)[key] == EntryInum(c, k)
  {
    hide EntryInum, EntryKey, Entries;
    if n > 0 {
      DirUpToMember(c, n - 1, key);
    }
  }

  /** `strncpy` and the inode number: the bytes of a new entry. */
  function EntryBytes(name: seq<Byte>, inum: nat): (e: seq<Byte>)
    requires inum < 0x1_0000
    ensures |e| == ENTRY
  {
    [ByteOf(inum % 0x100), ByteOf(inum / 0x100)] + Padded(name)
  }

  /** The first free entry, or the number of entries. */
  function FirstFree(c: seq<Byte>, k: nat): (f: nat)
    requires k <= Entries(c)
    ensures k <= f <= Entries(c)
    ensures f < Entries(c) ==> EntryInum(c, f) == 0
    ensures forall j :: k <= j < f ==> EntryInum(c, j) != 0
    decreases Entries(c) - k
  {
    if k == Entries(c) || EntryInum(c, k) == 0 then k else FirstFree(c, k + 1)
  }

  /** Contents that differ only in entry `f`. */
  ghost predicate SameBut(c: seq<Byte>, d: seq<Byte>, f: nat) {
    && |c| % ENTRY == 0 && |d| % ENTRY == 0
    && (Entries(d) == Entries(c) || (f == Entries(c) && Entries(d) == f + 1))
    && forall k :: 0 <= k < Entries(c) && k != f ==>
       EntryInum(d, k) == EntryInum(c, k) && EntryKey(d, k) == EntryKey(c, k)
  }

  lemma EntryWritten(c: seq<Byte>, f: nat, e: seq<Byte>)
    requires |c| % ENTRY == 0 && f <= Entries(c) && |e| == ENTRY
    ensures var d := Overwritten(c, ENTRY * f, e);
            && SameBut(c, d, f) && f < Entries(d)
            && d[ENTRY * f..ENTRY * f + ENTRY] == e
            && EntryInum(d, f) == (e[0] as int) + 0x100 * (e[1] as int) && EntryKey(d, f) == Key(e[2..])
  {
    var d := Overwritten(c, ENTRY * f, e);
    assert forall b :: 0 <= b < |c| && !(ENTRY * f <= b < ENTRY * f + ENTRY) ==> d[b] == c[b];
    forall k | 0 <= k < Entries(c) && k != f
      ensures EntryInum(d, k) == EntryInum(c, k) && EntryKey(d, k) == EntryKey(c, k)
    {
      assert d[ENTRY * k + 2..ENTRY * k + ENTRY] == c[ENTRY * k + 2..ENTRY * k + ENTRY];
    }
    assert d[ENTRY * f..ENTRY * f + ENTRY] == e;
    assert d[ENTRY * f] == e[0] && d[ENTRY * f + 1] == e[1];
    assert d[ENTRY * f + 2..ENTRY * f + ENTRY] == e[2..];
  }

  /** A live entry for a new name in a free place adds that one binding. */
  lemma EntryAdded(c: seq<Byte>, d: seq<Byte>, f: nat)
    requires DirOk(c) && SameBut(c, d, f) && f < Entries(d) && (f < Entries(c) ==> EntryInum(c, f) == 0)
    requires EntryInum(d, f) != 0 && EntryKey(d, f) !in Dir(c)
    ensures DirOk(d) && Dir(d) == Dir(c)[EntryKey(d, f) := EntryInum(d, f)]
  {
    hide EntryInum, EntryKey, Entries;
    var name := EntryKey(d, f);
    DirUpToMember(c, Entries(c), name);
    assert DirOk(d);
    forall key
      ensures key in Dir(d) <==> key == name || key in Dir(c)
      ensures key in Dir(d) ==> Dir(d)[key] == if key == name then EntryInum(d, f) else Dir(c)[key]
    {
      hide DirUpTo, DirOk;
      DirUpToMember(c, Entries(c), key);
      DirUpToMember(d, Entries(d), key);
    }
  }

  /** Freeing a live entry removes its binding and no other. */
  lemma EntryRemoved(c: seq<Byte>, d: seq<Byte>, f: nat)
    requires DirOk(c) && SameBut(c, d, f) && f < Entries(c) && EntryInum(c, f) != 0 && EntryInum(d, f) == 0
    ensures DirOk(d) && Dir(d) == Dir(c) - {EntryKey(c, f)}
  {
    hide EntryInum, EntryKey, Entries;
    assert DirOk(d);
    forall key
      ensures key in Dir(d) <==> key != EntryKey(c, f) && key in Dir(c)
      ensures key in Dir(d) ==> Dir(d)[key] == Dir(c)[key]
    {
      hide DirUpTo;
      DirUpToMember(c, Entries(c), key);
      DirUpToMember(d, Entries(d), key);
    }
  }

  // ----- the operations

  /** A directory inode of a sound volume whose contents are in order. */
  ghost predicate IsDirectory(fs: Fs, dp: nat)
    reads fs
  {
    && fs.Valid() && dp < fs.g.ninodes && fs.inodes[dp].typ == T_DIR && DirOk(Bytes(fs, dp))
  }

  /** The contents of file `i`. */
  ghost function Bytes(fs: Fs, i: nat): seq<Byte>
    requires fs.Valid() && i < fs.g.ninodes
    reads fs
  {
    Content(fs.g, fs.disk, fs.inodes[i])
  }

  datatype Lookup = Found(inum: nat, off: nat) | Absent

  /** What the inner loop of dirlookup finds in one block: an entry, or BSIZE / ENTRY. */
  method ScanBlock(blk: Block, name: seq<Byte>) returns (e: nat)
    ensures e <= BSIZE / ENTRY
    ensures e < BSIZE / ENTRY ==> EntryInum(blk, e) != 0 && EntryKey(blk, e) == Key(name)
    ensures forall k :: 0 <= k < e ==> EntryInum(blk, k) == 0 || EntryKey(blk, k) != Key(name)
  {
    hide EntryInum, EntryKey;
    e := 0;
    while e < BSIZE / ENTRY
      invariant e <= BSIZE / ENTRY
      invariant forall k :: 0 <= k < e ==> EntryInum(blk, k) == 0 || EntryKey(blk, k) != Key(name)
    {
      if EntryInum(blk, e) != 0 {
        var equal := Namecmp(name, blk[ENTRY * e + 2..ENTRY * e + ENTRY]);
        EntryKeyIs(blk, e);
        if equal {
          return;
        }
      }
      e := e + 1;
    }
  }

  lemma EntryKeyIs(c: seq<Byte>, k: nat)
    requires k < Entries(c)
    ensures EntryKey(c, k) == Key(c[ENTRY * k + 2..ENTRY * k + ENTRY])
  {
  }

  lemma SliceOfSlice(s: seq<Byte>, lo: nat, hi: nat, a: nat, b: nat)
    requires lo <= hi <= |s| && a <= b <= hi - lo
    ensures s[lo..hi][a..b] == s[lo + a..lo + b]
  {
    assert forall j :: 0 <= j < b - a ==> s[lo..hi][a..b][j] == s[lo + a..lo + b][j];
  }

  /** Entry `e` of the n-th block is entry `32 * n + e` of the image; the ones past the
      size of the directory are free because the tail of the last block is zero. */
  lemma BlockEntry(image: seq<Byte>, size: nat, n: nat, blk: Block, e: nat)
    requires size <= |image| && size % ENTRY == 0 && |image| % BSIZE == 0 && (n + 1) * BSIZE <= |image|
    requires forall k :: size <= k < |image| ==> image[k] == 0
    requires blk == image[n * BSIZE..n * BSIZE + BSIZE] && e < BSIZE / ENTRY
    ensures var k := n * (BSIZE / ENTRY) + e;
            if k < Entries(image[..size])
            then EntryInum(image[..size], k) == EntryInum(blk, e) && EntryKey(image[..size], k) == EntryKey(blk, e)
            else EntryInum(blk, e) == 0
  {
    hide Key;
    var k := n * (BSIZE / ENTRY) + e;
    assert ENTRY * k == n * BSIZE + ENTRY * e;
    assert blk[ENTRY * e] == image[ENTRY * k] && blk[ENTRY * e + 1] == image[ENTRY * k + 1];
    if k < Entries(image[..size]) {
      SliceOfPrefix(image, size, ENTRY * k + 2, ENTRY * k + ENTRY);
      SliceOfSlice(image, n * BSIZE, n * BSIZE + BSIZE, ENTRY * e + 2, ENTRY * e + ENTRY);
    }
  }

  /** Looks up a name, scanning whole blocks even past the end of the directory. */
  method Dirlookup(fs: Fs, dp: nat, name: seq<Byte>) returns (r: Lookup)
    requires IsDirectory(fs, dp)
    modifies fs
    ensures unchanged(fs)
    ensures r.Absent? <==> Key(name) !in Dir(Bytes(fs, dp))
    ensures r.Found? ==>
              && Key(name) in Dir(Bytes(fs, dp)) && Dir(Bytes(fs, dp))[Key(name)] == r.inum != 0
              && r.off % ENTRY == 0 && r.off / ENTRY < Entries(Bytes(fs, dp))
              && EntryKey(Bytes(fs, dp), r.off / ENTRY) == Key(name)
                 && EntryInum(Bytes(fs, dp), r.off / ENTRY) == r.inum
  {
    hide EntryInum, EntryKey, AddressesOwned, OwnersHold, BitmapExact, FreeBlocksZero, Image, SlotAddr, FileBlock,
         DirOk, HasBlocks, Key;
    ghost var c := Bytes(fs, dp);
    var off := 0;
    ghost var n := 0;
    while off < fs.inodes[dp].size
      invariant unchanged(fs) && off == n * BSIZE
      invariant forall k :: 0 <= k < n * (BSIZE / ENTRY) && k < Entries(c) ==>
          EntryInum(c, k) == 0 || EntryKey(c, k) != Key(name)
      decreases fs.inodes[dp].size - off
    {
      assert off / BSIZE == n;
      var e, blk := ScanDirBlock(fs, dp, off / BSIZE, name);
      assert Bytes(fs, dp) == c;
      if e < BSIZE / ENTRY {
        DirUpToMember(c, Entries(c), Key(name));
        assert (off + ENTRY * e) / ENTRY == n * (BSIZE / ENTRY) + e;
        return Found(EntryInum(blk, e), off + ENTRY * e);
      }
      assert n * (BSIZE / ENTRY) + e == (n + 1) * (BSIZE / ENTRY);
      forall k | 0 <= k < (n + 1) * (BSIZE / ENTRY) && k < Entries(c)
        ensures EntryInum(c, k) == 0 || EntryKey(c, k) != Key(name)
      {
      }
      off, n := off + BSIZE, n + 1;
    }
    assert Entries(c) <= n * (BSIZE / ENTRY);
    DirUpToMember(c, Entries(c), Key(name));
    return Absent;
  }

  /** One round of dirlookup's outer loop: the n-th block of the directory. */
  method ScanDirBlock(fs: Fs, dp: nat, n: nat, name: seq<Byte>) returns (e: nat, blk: Block)
    requires IsDirectory(fs, dp) && n * BSIZE < fs.inodes[dp].size
    modifies fs
    ensures unchanged(fs) && e <= BSIZE / ENTRY
    ensures var c := Bytes(fs, dp);
            && (e < BSIZE / ENTRY ==>
                  && n * (BSIZE / ENTRY) + e < Entries(c)
                  && EntryInum(c, n * (BSIZE / ENTRY) + e) == EntryInum(blk, e) != 0
                  && EntryKey(c, n * (BSIZE / ENTRY) + e) == Key(name))
            && forall k :: n * (BSIZE / ENTRY) <= k < n * (BSIZE / ENTRY) + e && k < Entries(c) ==>
                 EntryInum(c, k) == 0 || EntryKey(c, k) != Key(name)
  {
    hide EntryInum, EntryKey, AddressesOwned, OwnersHold, BitmapExact, FreeBlocksZero, Image, SlotAddr, FileBlock;
    ghost var size, cap := fs.inodes[dp].size, BlocksFor(fs.inodes[dp].size);
    FileFits(fs.g, fs.disk, fs.inodes[dp]);
    var addr := fs.Bmap(dp, n, cap);
    FileBlockIsData(fs.g, fs.disk, fs.inodes, fs.owner, dp, n);
    blk := fs.disk[addr];
    e := ScanBlock(blk, name);
    ghost var image := Image(fs.g, fs.disk, fs.inodes[dp], cap);
    ImageSlice(fs.g, fs.disk, fs.inodes[dp], cap, n, 0, BSIZE);
    assert blk[0..BSIZE] == blk;
    forall j | 0 <= j < BSIZE / ENTRY
      ensures var k := n * (BSIZE / ENTRY) + j;
              if k < Entries(image[..size])
              then EntryInum(image[..size], k) == EntryInum(blk, j) && EntryKey(image[..size], k) == EntryKey(blk, j)
              else EntryInum(blk, j) == 0
    {
      BlockEntry(image, size, n, blk, j);
    }
    forall k | n * (BSIZE / ENTRY) <= k < n * (BSIZE / ENTRY) + e && k < Entries(image[..size])
      ensures EntryInum(image[..size], k) == 0 || EntryKey(image[..size], k) != Key(name)
    {
      var j := k - n * (BSIZE / ENTRY);
      assert EntryInum(blk, j) == 0 || EntryKey(blk, j) != Key(name);
    }
  }

  lemma WholeEntries(c: seq<Byte>)
    requires DirOk(c)
    ensures |c| % ENTRY == 0
  {
  }

  lemma EntryParts(name: seq<Byte>, inum: nat)
    requires inum < 0x1_0000
    ensures var e := EntryBytes(name, inum);
            Key(e[2..]) == Key(name) && (e[0] as int) + 0x100 * (e[1] as int) == inum
  {
    assert EntryBytes(name, inum)[2..] == Padded(name);
    PaddedKey(name);
  }

  /** The entry dirlink writes adds the binding it is asked for. */
  lemma LinkedEntry(c: seq<Byte>, name: seq<Byte>, inum: nat)
    requires DirOk(c) && Key(name) !in Dir(c) && 0 < inum < 0x1_0000
    ensures var d := Overwritten(c, ENTRY * FirstFree(c, 0), EntryBytes(name, inum));
            DirOk(d) && Dir(d) == Dir(c)[Key(name) := inum]
  {
    hide EntryInum, EntryKey, Key, Overwritten, EntryBytes, Dir, DirOk;
    var f, e := FirstFree(c, 0), EntryBytes(name, inum);
    WholeEntries(c);
    EntryWritten(c, f, e);
    EntryParts(name, inum);
    EntryAdded(c, Overwritten(c, ENTRY * f, e), f);
  }

  /** What writing the entry at `off` takes, which is the first free one or comes after the last. */
  lemma EntryWriteCost(ip: Inode, off: nat)
    requires |ip.addrs| == NDIRECT + 1 && ip.size % ENTRY == 0 && off % ENTRY == 0 && off <= ip.size <= MAXFILE * BSIZE
    ensures WriteRoom(off, ENTRY) == if off == MAXFILE * BSIZE then 0 else ENTRY
    ensures WriteCost(ip, off + WriteRoom(off, ENTRY)) ==
              if off == ip.size && ip.size % BSIZE == 0 && ip.size < MAXFILE * BSIZE
              then Cost(ip, ip.size / BSIZE, ip.size / BSIZE + 1) else 0
  {
    hide Cost;
    EntryEnd(ip.size, off);
  }

  /** An entry needs a new block exactly when it comes after the last one of a full block. */
  lemma EntryEnd(size: nat, off: nat)
    requires size % ENTRY == 0 && off % ENTRY == 0 && off <= size
    ensures MaxBlocks(size, off) == BlocksFor(size)
    ensures MaxBlocks(size, off + ENTRY) == BlocksFor(size) + if off == size && size % BSIZE == 0 then 1 else 0
    ensures size % BSIZE == 0 ==> BlocksFor(size) == size / BSIZE
  {
    hide BlocksFor;
    var q, r := size / BSIZE, size % BSIZE;
    BlocksOf(q, r);
    BlocksOf(q, r + ENTRY);
    MoreBlocks(off, size);
    if off < size {
      NextEntryFits(off, size);
      MoreBlocks(off + ENTRY, size);
    } else {
      SixteenthPart(size);
    }
  }

  lemma BlocksOf(q: nat, r: nat)
    requires r <= BSIZE
    ensures BlocksFor(BSIZE * q + r) == if r == 0 then q else q + 1
  {
  }

  lemma MoreBlocks(a: nat, b: nat)
    requires a <= b
    ensures BlocksFor(a) <= BlocksFor(b)
  {
  }

  lemma NextEntryFits(a: nat, b: nat)
    requires a % ENTRY == 0 && b % ENTRY == 0 && a < b
    ensures a + ENTRY <= b
  {
  }

  lemma SixteenthPart(size: nat)
    requires size % ENTRY == 0
    ensures size % BSIZE + ENTRY <= BSIZE
  {
    var q := size / ENTRY;
    assert size == ENTRY * q;
  }

  lemma ShortEntryWrite(c: seq<Byte>, off: nat, n: int)
    requires |c| <= MAXFILE * BSIZE && off <= |c| && off % ENTRY == 0 && |c| % ENTRY == 0
    requires 0 <= n <= WriteRoom(off, ENTRY) && n != ENTRY
    requires n < WriteRoom(off, ENTRY) ==> (off + n) % BSIZE == 0
    ensures n == 0 && Overwritten(c, off, []) == c
  {
  }

  /** An entry read from the file is the entry of the contents. */
  lemma EntryRead(c: seq<Byte>, off: nat, de: seq<Byte>)
    requires |c| % ENTRY == 0 && off % ENTRY == 0 && off + ENTRY <= |c| && de == c[off..off + ENTRY]
    ensures off / ENTRY < Entries(c) && EntryInum(c, off / ENTRY) == (de[0] as int) + 0x100 * (de[1] as int)
  {
  }

  datatype LinkResult = Linked | Exists | Panic

  /** What a new entry in directory `dp` takes from the free blocks: nothing while there is a
      free entry or space after the last one. */
  ghost function EntryCost(fs: Fs, dp: nat): nat
    requires fs.Valid() && dp < fs.g.ninodes
    reads fs
  {
    var size := fs.inodes[dp].size;
    if FirstFree(Bytes(fs, dp), 0) < Entries(Bytes(fs, dp)) || size % BSIZE != 0 then 0
    else Cost(fs.inodes[dp], size / BSIZE, size / BSIZE + 1)
  }

  /** Directory `dp` needs another block for a new entry and cannot have it: the file has its
      largest size, or too few blocks are free once `spare` of them are taken. */
  ghost predicate NoRoomIn(fs: Fs, dp: nat, spare: nat)
    requires fs.Valid() && dp < fs.g.ninodes
    reads fs
  {
    && EntryCost(fs, dp) > 0
    && (fs.inodes[dp].size == MAXFILE * BSIZE || FreeBlocks(fs.g, fs.owner) < spare + EntryCost(fs, dp))
  }

  /** The loop of dirlink: the offset of the first free entry, or the end. */
  method FreeSlot(fs: Fs, dp: nat) returns (off: nat)
    requires IsDirectory(fs, dp)
    modifies fs
    ensures unchanged(fs) && off == ENTRY * FirstFree(Bytes(fs, dp), 0) && off <= fs.inodes[dp].size
  {
    hide EntryInum, EntryKey, AddressesOwned, OwnersHold, BitmapExact, FreeBlocksZero, Content, HasBlocks, Image;
    ghost var c := Bytes(fs, dp);
    FileFits(fs.g, fs.disk, fs.inodes[dp]);
    WholeEntries(c);
    off := 0;
    while off < fs.inodes[dp].size
      invariant unchanged(fs) && off % ENTRY == 0 && off <= fs.inodes[dp].size
      invariant FirstFree(c, off / ENTRY) == FirstFree(c, 0)
      decreases fs.inodes[dp].size - off
    {
      var n, de := fs.Readi(dp, off, ENTRY, map[]);
      if n != ENTRY {
        assert false;         // "dirlink read"
      }
      EntryRead(c, off, de);
      if (de[0] as int) + 0x100 * (de[1] as int) == 0 {
        break;
      }
      off := off + ENTRY;
    }
  }

  /** Adds an entry for a name that the directory does not have.  The source panics exactly when
      there is no room, and then the directory is as it was. */
  method Dirlink(fs: Fs, dp: nat, name: seq<Byte>, inum: nat) returns (r: LinkResult)
    requires IsDirectory(fs, dp) && 0 < inum < 0x1_0000
    modifies fs
    ensures fs.Valid() && OtherFilesSame(fs.g, old(fs.disk), old(fs.inodes), fs.disk, fs.inodes, dp)
    ensures fs.inodes[dp] == old(fs.inodes)[dp].(addrs := fs.inodes[dp].addrs, size := fs.inodes[dp].size)
    ensures IsDirectory(fs, dp)
    ensures r.Exists? <==> Key(name) in Dir(old(Bytes(fs, dp)))
    ensures r.Exists? ==> unchanged(fs)
    ensures r.Linked? ==>
              && var f := FirstFree(old(Bytes(fs, dp)), 0);
              && Bytes(fs, dp) == Overwritten(old(Bytes(fs, dp)), ENTRY * f, EntryBytes(name, inum))
              && Dir(Bytes(fs, dp)) == Dir(old(Bytes(fs, dp)))[Key(name) := inum]
    ensures r.Linked? ==> FreeBlocks(fs.g, fs.owner) + old(EntryCost(fs, dp)) == old(FreeBlocks(fs.g, fs.owner))
    ensures r.Panic? <==> Key(name) !in Dir(old(Bytes(fs, dp))) && old(NoRoomIn(fs, dp, 0))
    ensures r.Panic? ==> Bytes(fs, dp) == old(Bytes(fs, dp)) && NoRoomIn(fs, dp, 0)
  {
    hide EntryInum, EntryKey, AddressesOwned, OwnersHold, BitmapExact, FreeBlocksZero, Content, HasBlocks, Dir, Key,
         Overwritten, EntryBytes, OtherFilesSame, FreeBlocks, Cost, WriteCost, DiskFull, FirstFree;
    ghost var c := Bytes(fs, dp);
    FileFits(fs.g, fs.disk, fs.inodes[dp]);
    NothingChanged(fs.g, fs.disk, fs.inodes, fs.owner, dp);
    var found := Dirlookup(fs, dp, name);
    if found.Found? {
      return Exists;
    }
    var off := FreeSlot(fs, dp);
    WholeEntries(c);
    EntryWriteCost(fs.inodes[dp], off);
    var n := fs.Writei(dp, EntryBytes(name, inum), off, map[]);
    if n != ENTRY {
      ShortEntryWrite(c, off, n);
      FullIsNoneFree(fs.g, fs.owner);
      return Panic;
    }
    assert EntryBytes(name, inum)[..ENTRY] == EntryBytes(name, inum);
    LinkedEntry(c, name, inum);
    return Linked;
  }
}
