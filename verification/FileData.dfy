/**
 File extents and the bytes they hold (kernel/fs.c), as values: where byte k of a file
 is, what writing into a block changes, when extents keep apart, and which ranges of a
 file readi and writei can walk.
 */
module FileData {
  import opened Prelude
  import opened Blocks

  const EXTENT_N := 7
  const EXTENT_BLOCKS := 8
  const EXTENT_BYTES := 4096

  type byte = x: int | 0 <= x < 256

  // struct extent; mkfs makes first extents of any length, the kernel's have eight blocks.
  datatype Extent = Extent(start: nat, nblocks: nat)

  datatype Inode = Inode(size: nat, ext: seq<Extent>)

  ghost predicate DiskOk(d: Disk) {
    forall b :: b in d ==> Whole(d[b])
  }

  // ---- the bytes of a block ----

  // Byte i of a word, lowest first.
  function ByteOf(w: word, i: nat): byte {
    if i == 0 then w % 256
    else if i == 1 then w / 256 % 256
    else if i == 2 then w / 65536 % 256
    else w / 16777216
  }

  function WordOf(a: byte, b: byte, c: byte, d: byte): word {
    a + 256 * b + 65536 * c + 16777216 * d
  }

  lemma WordBytes(a: byte, b: byte, c: byte, d: byte)
    ensures ByteOf(WordOf(a, b, c, d), 0) == a && ByteOf(WordOf(a, b, c, d), 1) == b
    ensures ByteOf(WordOf(a, b, c, d), 2) == c && ByteOf(WordOf(a, b, c, d), 3) == d
  {
    var w := WordOf(a, b, c, d);
    assert w / 256 == b + 256 * c + 65536 * d;
    assert w / 65536 == c + 256 * d;
    assert w / 16777216 == d;
  }

  function BytesOf(b: Block): (r: seq<byte>)
    requires Whole(b)
    ensures |r| == BSIZE
  {
    seq(BSIZE, i requires 0 <= i < BSIZE => ByteOf(b.words[i / 4], i % 4))
  }

  function BlockOf(s: seq<byte>): (b: Block)
    requires |s| == BSIZE
    ensures Whole(b)
  {
    Block(seq(BLOCK_WORDS,
              i requires 0 <= i < BLOCK_WORDS => WordOf(s[4 * i], s[4 * i + 1], s[4 * i + 2], s[4 * i + 3])))
  }

  lemma BlockBytes(s: seq<byte>)
    requires |s| == BSIZE
    ensures BytesOf(BlockOf(s)) == s
  {
    hide ByteOf, WordOf;
    forall i | 0 <= i < BSIZE ensures BytesOf(BlockOf(s))[i] == s[i] {
      var w := i / 4;
      WordBytes(s[4 * w], s[4 * w + 1], s[4 * w + 2], s[4 * w + 3]);
    }
  }

  function Byte(d: Disk, b: nat, o: nat): byte
    requires DiskOk(d) && b in d && o < BSIZE
  {
    BytesOf(d[b])[o]
  }

  // memmove of src into block b at offset o
  function Stored(d: Disk, b: nat, o: nat, src: seq<byte>): (n: Disk)
    requires DiskOk(d) && b in d && o + |src| <= BSIZE
    ensures DiskOk(n) && n.Keys == d.Keys
  {
    var s := BytesOf(d[b]);
    d[b := BlockOf(s[..o] + src + s[o + |src|..])]
  }

  lemma StoredByte(d: Disk, b: nat, o: nat, src: seq<byte>, x: nat, y: nat)
    requires DiskOk(d) && b in d && o + |src| <= BSIZE && x in d && y < BSIZE
    ensures Byte(Stored(d, b, o, src), x, y) == if x == b && o <= y < o + |src| then src[y - o] else Byte(d, x, y)
  {
    hide BytesOf, BlockOf;
    var s := BytesOf(d[b]);
    BlockBytes(s[..o] + src + s[o + |src|..]);
  }

  // ---- the bytes of a file ----

  // The first `used` extents have blocks, the others none.
  predicate Shaped(ip: Inode, used: nat) {
    && |ip.ext| == EXTENT_N && used <= EXTENT_N
    && (forall i :: 0 <= i < used ==> ip.ext[i].nblocks > 0)
    && (forall i :: used <= i < EXTENT_N ==> ip.ext[i] == Extent(0, 0))
  }

  predicate InExtent(e: Extent, b: nat) {
    e.start <= b < e.start + e.nblocks
  }

  ghost predicate OnDisk(d: Disk, ip: Inode, used: nat) {
    Shaped(ip, used) && forall i, b :: 0 <= i < used && InExtent(ip.ext[i], b) ==> b in d
  }

  // Where extent k begins in the file.
  function Base(ip: Inode, k: nat): (r: nat)
    requires k <= |ip.ext|
    ensures r % BSIZE == 0
  {
    if k == 0 then 0 else Base(ip, k - 1) + ip.ext[k - 1].nblocks * BSIZE
  }

  lemma {:induction false} BaseGrows(ip: Inode, j: nat, k: nat)
    requires j <= k <= |ip.ext|
    ensures Base(ip, j) <= Base(ip, k)
  {
    if j < k { BaseGrows(ip, j, k - 1); }
  }

  // The extent of byte x.
  function ExtOf(ip: Inode, used: nat, x: nat): (k: nat)
    requires used <= |ip.ext| && x < Base(ip, used)
    ensures k < used && Base(ip, k) <= x < Base(ip, k + 1)
  {
    if x >= Base(ip, used - 1) then used - 1 else ExtOf(ip, used - 1, x)
  }

  lemma ExtIs(ip: Inode, used: nat, x: nat, k: nat)
    requires k < used <= |ip.ext| && Base(ip, k) <= x < Base(ip, k + 1)
    ensures x < Base(ip, used) && ExtOf(ip, used, x) == k
  {
    hide Base;
    BaseGrows(ip, k + 1, used);
    var j := ExtOf(ip, used, x);
    if j < k { BaseGrows(ip, j + 1, k); } else if k < j { BaseGrows(ip, k + 1, j); }
  }

  // The block of byte x of the file.
  function Blk(ip: Inode, used: nat, x: nat): nat
    requires used <= |ip.ext| && x < Base(ip, used)
  {
    var k := ExtOf(ip, used, x);
    ip.ext[k].start + (x - Base(ip, k)) / BSIZE
  }

  lemma BlkInExtent(ip: Inode, used: nat, x: nat)
    requires used <= |ip.ext| && x < Base(ip, used)
    ensures InExtent(ip.ext[ExtOf(ip, used, x)], Blk(ip, used, x))
  {
  }

  lemma BlkOnDisk(d: Disk, ip: Inode, used: nat, x: nat)
    requires OnDisk(d, ip, used) && x < Base(ip, used)
    ensures Blk(ip, used, x) in d
  {
    hide Base, Blk;
    BlkInExtent(ip, used, x);
  }

  ghost function ByteAt(d: Disk, ip: Inode, used: nat, x: nat): byte
    requires DiskOk(d) && OnDisk(d, ip, used) && x < Base(ip, used)
  {
    BlkOnDisk(d, ip, used, x);
    Byte(d, Blk(ip, used, x), x % BSIZE)
  }

  // Everything the file's extents hold, written or not.
  ghost function View(d: Disk, ip: Inode, used: nat): (r: seq<byte>)
    requires DiskOk(d) && OnDisk(d, ip, used)
    ensures |r| == Base(ip, used)
  {
    seq(Base(ip, used), x requires 0 <= x < Base(ip, used) => ByteAt(d, ip, used, x))
  }

  lemma ViewByte(d: Disk, ip: Inode, used: nat, x: nat)
    requires DiskOk(d) && OnDisk(d, ip, used) && x < Base(ip, used)
    ensures Blk(ip, used, x) in d && View(d, ip, used)[x] == Byte(d, Blk(ip, used, x), x % BSIZE)
  {
    BlkOnDisk(d, ip, used, x);
  }

  // The bytes of eight blocks.
  ghost function ExtentBytes(d: Disk, start: nat): (r: seq<byte>)
    requires DiskOk(d) && forall b :: start <= b < start + EXTENT_BLOCKS ==> b in d
    ensures |r| == EXTENT_BYTES
  {
    seq(EXTENT_BYTES, k requires 0 <= k < EXTENT_BYTES => Byte(d, start + k / BSIZE, k % BSIZE))
  }

  // The file's bytes, as far as it has blocks for them.
  ghost function Contents(d: Disk, ip: Inode, used: nat): seq<byte>
    requires DiskOk(d) && OnDisk(d, ip, used)
  {
    View(d, ip, used)[..Min(ip.size, Base(ip, used))]
  }

  function Splice(v: seq<byte>, k: nat, src: seq<byte>): (r: seq<byte>)
    requires k + |src| <= |v|
    ensures |r| == |v|
  {
    v[..k] + src + v[k + |src|..]
  }

  // ---- extents ----

  predicate Apart(a: Extent, b: Extent) {
    a.start + a.nblocks <= b.start || b.start + b.nblocks <= a.start
  }

  predicate SelfApart(ip: Inode, used: nat)
    requires used <= |ip.ext|
  {
    forall i, j :: 0 <= i < j < used ==> Apart(ip.ext[i], ip.ext[j])
  }

  // Two bytes in one disk block are in one block of the file.
  lemma SameBlk(ip: Inode, used: nat, x: nat, y: nat)
    requires used <= |ip.ext| && SelfApart(ip, used) && x < Base(ip, used) && y < Base(ip, used)
    ensures Blk(ip, used, x) == Blk(ip, used, y) <==> x / BSIZE == y / BSIZE
  {
    hide Base, ExtOf, SelfApart;
    var a, b := ExtOf(ip, used, x), ExtOf(ip, used, y);
    if a == b {
      SameQuotient(x, y, Base(ip, a));
    } else if a < b {
      OtherExtent(ip, used, x, y);
    } else {
      OtherExtent(ip, used, y, x);
    }
  }

  lemma OtherExtent(ip: Inode, used: nat, x: nat, y: nat)
    requires used <= |ip.ext| && SelfApart(ip, used) && x < Base(ip, used) && y < Base(ip, used)
    requires ExtOf(ip, used, x) < ExtOf(ip, used, y)
    ensures Blk(ip, used, x) != Blk(ip, used, y) && x / BSIZE < y / BSIZE
  {
    hide Base, ExtOf, Blk;
    var a, b := ExtOf(ip, used, x), ExtOf(ip, used, y);
    BlkInExtent(ip, used, x);
    BlkInExtent(ip, used, y);
    assert Apart(ip.ext[a], ip.ext[b]);
    BaseGrows(ip, a + 1, b);
    Boundary(x, y, Base(ip, b));
  }

  lemma SameQuotient(x: nat, y: nat, b: nat)
    requires b <= x && b <= y && b % BSIZE == 0
    ensures (x - b) / BSIZE == (y - b) / BSIZE <==> x / BSIZE == y / BSIZE
  {
  }

  lemma Boundary(x: nat, y: nat, b: nat)
    requires x < b <= y && b % BSIZE == 0
    ensures x / BSIZE < y / BSIZE
  {
  }

  // A change inside one block changes the file there and nowhere else.
  lemma PatchView(d: Disk, ip: Inode, used: nat, k: nat, src: seq<byte>)
    requires DiskOk(d) && OnDisk(d, ip, used) && SelfApart(ip, used)
    requires src != [] && k + |src| <= Base(ip, used) && k % BSIZE + |src| <= BSIZE
    ensures Blk(ip, used, k) in d && OnDisk(Stored(d, Blk(ip, used, k), k % BSIZE, src), ip, used)
    ensures View(Stored(d, Blk(ip, used, k), k % BSIZE, src), ip, used) == Splice(View(d, ip, used), k, src)
  {
    hide Byte, DiskOk, Stored, Blk, View, Base;
    BlkOnDisk(d, ip, used, k);
    var n := Stored(d, Blk(ip, used, k), k % BSIZE, src);
    assert OnDisk(n, ip, used);
    forall x | 0 <= x < Base(ip, used) ensures View(n, ip, used)[x] == Splice(View(d, ip, used), k, src)[x] {
      ViewByte(d, ip, used, x);
      ViewByte(n, ip, used, x);
      SameBlk(ip, used, x, k);
      StoredByte(d, Blk(ip, used, k), k % BSIZE, src, Blk(ip, used, x), x % BSIZE);
      InBlock(x, k, |src|);
    }
  }

  lemma InBlock(x: nat, k: nat, n: nat)
    requires k % BSIZE + n <= BSIZE
    ensures x / BSIZE == k / BSIZE && k % BSIZE <= x % BSIZE < k % BSIZE + n <==> k <= x < k + n
    ensures k <= x < k + n ==> x % BSIZE - k % BSIZE == x - k
  {
  }

  // Block b is in one of the file's extents.
  predicate InFile(ip: Inode, used: nat, b: nat) {
    exists i :: 0 <= i < used && i < |ip.ext| && InExtent(ip.ext[i], b)
  }

  // Blocks outside the file's extents are as they were.
  ghost predicate Elsewhere(a: Disk, b: Disk, ip: Inode, used: nat) {
    a.Keys == b.Keys && forall k :: k in a && !InFile(ip, used, k) ==> b[k] == a[k]
  }

  lemma PatchElsewhere(d: Disk, ip: Inode, used: nat, k: nat, src: seq<byte>)
    requires DiskOk(d) && OnDisk(d, ip, used) && k < Base(ip, used) && k % BSIZE + |src| <= BSIZE
    ensures Blk(ip, used, k) in d && InFile(ip, used, Blk(ip, used, k))
    ensures Elsewhere(d, Stored(d, Blk(ip, used, k), k % BSIZE, src), ip, used)
  {
    hide BytesOf, BlockOf, DiskOk, Blk, Base;
    BlkOnDisk(d, ip, used, k);
    BlkInExtent(ip, used, k);
  }

  // ... and no other file.
  lemma PatchOther(d: Disk, b: nat, o: nat, src: seq<byte>, other: Inode, used: nat)
    requires DiskOk(d) && b in d && o + |src| <= BSIZE && OnDisk(d, other, used) && !InFile(other, used, b)
    ensures OnDisk(Stored(d, b, o, src), other, used)
    ensures View(Stored(d, b, o, src), other, used) == View(d, other, used)
  {
    hide Byte, DiskOk, Stored, Blk, View, Base;
    var n := Stored(d, b, o, src);
    assert OnDisk(n, other, used);
    forall x | 0 <= x < Base(other, used) ensures View(n, other, used)[x] == View(d, other, used)[x] {
      ViewByte(d, other, used, x);
      ViewByte(n, other, used, x);
      BlkInExtent(other, used, x);
      StoredByte(d, b, o, src, Blk(other, used, x), x % BSIZE);
    }
  }

  // ---- the bitmap ----

  // The extent that a bitmap byte stands for.  Byte x is byte x % BSIZE of the bitmap
  // block x / BSIZE back from the last; `top` is the end of the data blocks.
  function SlotStart(top: nat, x: nat): int {
    top - x / BSIZE * BSIZE - (x % BSIZE + 1) * EXTENT_BLOCKS
  }

  // The extents of a bitmap block's bytes lie one below the other, the first at the top.
  lemma SlotsDown(top: nat, x: nat)
    ensures SlotStart(top, 0) + EXTENT_BLOCKS == top
    ensures (x + 1) % BSIZE != 0 ==> SlotStart(top, x + 1) + EXTENT_BLOCKS == SlotStart(top, x)
    ensures SlotStart(top, x + BSIZE) == SlotStart(top, x) - BSIZE
  {
    assert (x + 1) % BSIZE != 0 ==> (x + 1) / BSIZE == x / BSIZE;
  }

  predicate Overlap(a: int, b: int) {
    a < b + EXTENT_BLOCKS && b < a + EXTENT_BLOCKS
  }

  // Two bitmap bytes stand for the same extent, or for extents that keep apart.
  lemma SlotsOverlap(top: nat, x: nat, y: nat)
    ensures Overlap(SlotStart(top, x), SlotStart(top, y)) <==> SlotStart(top, x) == SlotStart(top, y)
    ensures SlotStart(top, x) == SlotStart(top, y) <==> 64 * (x / BSIZE) + x % BSIZE == 64 * (y / BSIZE) + y % BSIZE
  {
  }

  // When bytes are given out in order, byte m is the first whose extent an earlier byte
  // already stands for from 512 on: the blocks of the bitmap are taken to be 512 blocks of
  // disk apart, and each stands for 4096.
  lemma ClashesExactly(top: nat, m: nat)
    ensures (exists y :: 0 <= y < m && Overlap(SlotStart(top, m), SlotStart(top, y))) <==>
      m >= BSIZE && m % BSIZE < BSIZE - 64
  {
    hide SlotStart, Overlap;
    if y :| 0 <= y < m && Overlap(SlotStart(top, m), SlotStart(top, y)) {
      SlotsOverlap(top, m, y);
      SameCode(m, y);
    }
    if m >= BSIZE && m % BSIZE < BSIZE - 64 {
      SlotsOverlap(top, m, m - BSIZE + 64);
      assert (m - BSIZE + 64) / BSIZE == m / BSIZE - 1 && (m - BSIZE + 64) % BSIZE == m % BSIZE + 64;
    }
  }

  lemma SameCode(m: nat, y: nat)
    requires y < m && 64 * (m / BSIZE) + m % BSIZE == 64 * (y / BSIZE) + y % BSIZE
    ensures m >= BSIZE && m % BSIZE < BSIZE - 64
  {
    assert y / BSIZE < m / BSIZE;
  }
}
