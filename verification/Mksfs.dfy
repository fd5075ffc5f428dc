/** The file system builder mksfs.c: block numbers, the index of a file's blocks through
    direct, indirect and double indirect blocks, and the free map. */
module Mksfs {
  import opened Basics

  const ENTRIES: nat := 1024              // SFS_BLK_NENTRY
  const L0: nat := 12                     // SFS_L0_NBLKS
  const L1: nat := 1036                   // SFS_L1_NBLKS
  const MAX_BLOCKS: nat := 32768          // SFS_LN_NBLKS
  const BLKBITS: nat := 32768             // SFS_BLKBITS
  const MAX_NBLKS: nat := 524288          // SFS_MAX_NBLKS
  const ROOT: nat := 1                    // SFS_BLKN_ROOT
  const FREEMAP: nat := 2                 // SFS_BLKN_FREEMAP

  /** A cached inode; l1 and l2 are the block numbers of the cached index blocks that it
      points to, 0 for null. */
  datatype File = File(nblks: nat, direct: seq<nat>, indirect: nat, dbIndirect: nat, l1: nat, l2: nat, size: nat,
    blocks: nat)

  /** What an index block is for. */
  datatype Role = Indirect(file: nat) | Double(file: nat) | Sub(file: nat, j: nat)

  type Index = map<nat, seq<nat>>

  ghost predicate CacheOk(cache: Index, owner: map<nat, Role>) {
    && cache.Keys == owner.Keys && 0 !in cache
    && forall b :: b in cache ==> |cache[b]| == ENTRIES
  }

  /** The number of block k of a file, by the cached index blocks. */
  function Lookup(file: File, cache: Index, k: nat): nat {
    if k < L0 then Entry(file.direct, k)
    else if k < L1 then EntryOf(cache, file.indirect, k - L0)
    else EntryOf(cache, EntryOf(cache, file.dbIndirect, (k - L1) / 1024), (k - L1) % 1024)
  }

  function Entry(s: seq<nat>, i: nat): nat {
    if i < |s| then s[i] else 0
  }

  function EntryOf(cache: Index, b: nat, i: nat): nat {
    if b in cache then Entry(cache[b], i) else 0
  }

  /** Index block b, if it is needed, is there and is nobody else's. */
  ghost predicate Has(cache: Index, owner: map<nat, Role>, b: nat, needed: bool, role: Role) {
    if needed then b in owner && owner[b] == role && b != 0 else b == 0
  }

  /** The j-th block that the double indirect block names. */
  ghost predicate SubOk(f: nat, file: File, cache: Index, owner: map<nat, Role>, m: nat, j: nat) {
    Has(cache, owner, EntryOf(cache, file.dbIndirect, j), L1 + j * 1024 < m, Sub(f, j))
  }

  /** The file has the index blocks that m blocks need, and no others. */
  ghost predicate Room(f: nat, file: File, cache: Index, owner: map<nat, Role>, m: nat) {
    && |file.direct| == L0 && m <= MAX_BLOCKS
    && Has(cache, owner, file.indirect, m > L0, Indirect(f))
    && Has(cache, owner, file.dbIndirect, m > L1, Double(f))
    && (forall j {:trigger SubOk(f, file, cache, owner, m, j)} :: 0 <= j < ENTRIES ==>
         SubOk(f, file, cache, owner, m, j))
    && file.l1 == (if m <= L0 then 0 else if m <= L1 then file.indirect
       else EntryOf(cache, file.dbIndirect, (m - L1 - 1) / 1024))
    && file.l2 == file.dbIndirect
  }

  /** Block k of the file is the k-th appended. */
  ghost predicate Holds(file: File, cache: Index, appended: seq<nat>) {
    && file.nblks == file.blocks == |appended|
    && forall k {:trigger Lookup(file, cache, k)} :: 0 <= k < |appended| ==> Lookup(file, cache, k) == appended[k]
  }

  ghost predicate FileOk(f: nat, file: File, cache: Index, owner: map<nat, Role>, appended: seq<nat>) {
    Room(f, file, cache, owner, file.nblks) && Holds(file, cache, appended)
  }

  // ---------- other files ----------

  /** The files other than f. */
  ghost predicate OthersOk(f: nat, files: map<nat, File>, cache: Index, owner: map<nat, Role>,
                           appended: map<nat, seq<nat>>) {
    files.Keys == appended.Keys
    && forall g {:trigger FileOk(g, files[g], cache, owner, appended[g])} ::
         g in files && g != f ==> FileOk(g, files[g], cache, owner, appended[g])
  }

  ghost predicate AllOk(files: map<nat, File>, cache: Index, owner: map<nat, Role>, appended: map<nat, seq<nat>>) {
    files.Keys == appended.Keys
    && forall g {:trigger FileOk(g, files[g], cache, owner, appended[g])} ::
         g in files ==> FileOk(g, files[g], cache, owner, appended[g])
  }

  function FileOf(r: Role): nat {
    r.file
  }

  /** Index blocks of other files than f are untouched. */
  ghost predicate OthersKept(cache: Index, owner: map<nat, Role>, cache': Index, owner': map<nat, Role>, f: nat) {
    forall b :: b in owner && FileOf(owner[b]) != f ==>
      b in owner' && owner'[b] == owner[b] && b in cache && b in cache' && cache'[b] == cache[b]
  }

  lemma OtherFile(g: nat, file: File, cache: Index, owner: map<nat, Role>, cache': Index, owner': map<nat, Role>,
                  f: nat, appended: seq<nat>)
    requires FileOk(g, file, cache, owner, appended) && OthersKept(cache, owner, cache', owner', f) && f != g
    requires CacheOk(cache, owner) && CacheOk(cache', owner')
    ensures FileOk(g, file, cache', owner', appended)
  {
    var m := file.nblks;
    assert EntryOf(cache', file.dbIndirect, 0) == EntryOf(cache, file.dbIndirect, 0);
    forall j | 0 <= j < ENTRIES
      ensures SubOk(g, file, cache', owner', m, j)
    {
      assert SubOk(g, file, cache, owner, m, j);
    }
    forall k | 0 <= k < |appended|
      ensures Lookup(file, cache', k) == appended[k]
    {
      assert Lookup(file, cache, k) == appended[k];
      if k >= L1 {
        assert SubOk(g, file, cache, owner, m, (k - L1) / 1024);
      }
    }
  }

  // ---------- one more block ----------

  function Zeros(): (s: seq<nat>)
    ensures |s| == ENTRIES && forall i :: 0 <= i < ENTRIES ==> s[i] == 0
  {
    seq(ENTRIES, i => 0)
  }

  function SetEntry(s: seq<nat>, i: nat, x: nat): seq<nat>
    requires i < |s|
  {
    s[i := x]
  }

  /** How many index blocks the n-th append allocates. */
  function NewIndexBlocks(n: nat): nat {
    if n == L0 then 1 else if n == L1 then 2 else if n > L1 && (n - L1) % 1024 == 0 then 1 else 0
  }

  /** Which of the double indirect block d and the block c that it names are new when a file of n blocks grows. */
  function LevelsFor(n: nat, d: nat, c: nat): set<nat>
    requires n >= L1
  {
    if n == L1 then {d, c} else if (n - L1) % 1024 == 0 then {c} else {}
  }

  /** Most appends find their index blocks there. */
  lemma RoomLeft(f: nat, file: File, cache: Index, owner: map<nat, Role>, n: nat)
    requires Room(f, file, cache, owner, n) && n < MAX_BLOCKS && NewIndexBlocks(n) == 0
    ensures Room(f, file, cache, owner, n + 1)
  {
    var next := n + 1;
    forall j | 0 <= j < ENTRIES
      ensures SubOk(f, file, cache, owner, next, j)
    {
      assert SubOk(f, file, cache, owner, n, j);
    }
  }

  lemma FirstIndirect(f: nat, file: File, cache: Index, owner: map<nat, Role>, b: nat, appended: seq<nat>)
    requires CacheOk(cache, owner) && Room(f, file, cache, owner, L0) && Holds(file, cache, appended)
      && |appended| == L0
    requires b !in cache && b != 0
    ensures
      var file', cache', owner' := file.(indirect := b, l1 := b), cache[b := Zeros()], owner[b := Indirect(f)];
      && CacheOk(cache', owner') && Room(f, file', cache', owner', L0 + 1) && Holds(file', cache', appended)
      && OthersKept(cache, owner, cache', owner', f)
  {
    var file', cache', owner' := file.(indirect := b, l1 := b), cache[b := Zeros()], owner[b := Indirect(f)];
    var next := L0 + 1;
    forall j | 0 <= j < ENTRIES
      ensures SubOk(f, file', cache', owner', next, j)
    {
      assert SubOk(f, file, cache, owner, L0, j);
    }
    forall k | 0 <= k < |appended|
      ensures Lookup(file', cache', k) == appended[k]
    {
      assert Lookup(file, cache, k) == appended[k];
    }
  }

  lemma FirstDouble(f: nat, file: File, cache: Index, owner: map<nat, Role>, b: nat, c: nat, appended: seq<nat>)
    requires CacheOk(cache, owner) && Room(f, file, cache, owner, L1) && Holds(file, cache, appended)
      && |appended| == L1
    requires b !in cache && b != 0 && c !in cache && c != 0 && b != c
    ensures
      var file' := file.(dbIndirect := b, l2 := b, l1 := c);
      var cache', owner' := cache[b := SetEntry(Zeros(), 0, c)][c := Zeros()], owner[b := Double(f)][c := Sub(f, 0)];
      && CacheOk(cache', owner') && Room(f, file', cache', owner', L1 + 1) && Holds(file', cache', appended)
      && OthersKept(cache, owner, cache', owner', f)
  {
    var file' := file.(dbIndirect := b, l2 := b, l1 := c);
    var cache', owner' := cache[b := SetEntry(Zeros(), 0, c)][c := Zeros()], owner[b := Double(f)][c := Sub(f, 0)];
    var next := L1 + 1;
    forall j | 0 <= j < ENTRIES
      ensures SubOk(f, file', cache', owner', next, j)
    {
    }
    forall k | 0 <= k < |appended|
      ensures Lookup(file', cache', k) == appended[k]
    {
      assert Lookup(file, cache, k) == appended[k];
    }
  }

  lemma NextSub(f: nat, file: File, cache: Index, owner: map<nat, Role>, n: nat, c: nat, appended: seq<nat>)
    requires CacheOk(cache, owner) && Room(f, file, cache, owner, n) && Holds(file, cache, appended) && |appended| == n
    requires L1 < n < MAX_BLOCKS && (n - L1) % 1024 == 0 && c !in cache && c != 0
    ensures
      var q, d := (n - L1) / 1024, file.dbIndirect;
      && d in cache && EntryOf(cache, d, q) == 0
      && var file' := file.(l1 := c);
         var cache', owner' := cache[d := SetEntry(cache[d], q, c)][c := Zeros()], owner[c := Sub(f, q)];
         && CacheOk(cache', owner') && Room(f, file', cache', owner', n + 1) && Holds(file', cache', appended)
         && OthersKept(cache, owner, cache', owner', f)
  {
    var q, d := (n - L1) / 1024, file.dbIndirect;
    assert SubOk(f, file, cache, owner, n, q);
    var file' := file.(l1 := c);
    var cache', owner' := cache[d := SetEntry(cache[d], q, c)][c := Zeros()], owner[c := Sub(f, q)];
    var next := n + 1;
    forall j | 0 <= j < ENTRIES
      ensures SubOk(f, file', cache', owner', next, j)
    {
      assert SubOk(f, file, cache, owner, n, j);
    }
    forall k | 0 <= k < |appended|
      ensures Lookup(file', cache', k) == appended[k]
    {
      assert Lookup(file, cache, k) == appended[k];
      if k >= L1 {
        assert SubOk(f, file, cache, owner, n, (k - L1) / 1024);
      }
    }
  }

  /** The write of append_block, once the index blocks are there. */
  function PutFile(file: File, ino: nat, size: nat): File
    requires |file.direct| == L0
  {
    file.(direct := if file.nblks < L0 then file.direct[file.nblks := ino] else file.direct,
          nblks := file.nblks + 1, size := file.size + size, blocks := file.blocks + 1)
  }

  function PutCache(file: File, cache: Index, ino: nat): Index
    requires file.nblks >= L0 ==> file.l1 in cache && |cache[file.l1]| == ENTRIES && file.nblks < MAX_BLOCKS
  {
    if file.nblks < L0 then cache
    else
      var i := if file.nblks < L1 then file.nblks - L0 else (file.nblks - L1) % 1024;
      cache[file.l1 := SetEntry(cache[file.l1], i, ino)]
  }

  lemma PutOk(f: nat, file: File, cache: Index, owner: map<nat, Role>, ino: nat, size: nat, appended: seq<nat>)
    requires CacheOk(cache, owner) && Room(f, file, cache, owner, file.nblks + 1) && Holds(file, cache, appended)
    ensures file.nblks >= L0 ==> file.l1 in cache && |cache[file.l1]| == ENTRIES
    ensures
      var file', cache' := PutFile(file, ino, size), PutCache(file, cache, ino);
      CacheOk(cache', owner) && FileOk(f, file', cache', owner, appended + [ino])
        && OthersKept(cache, owner, cache', owner, f)
  {
    var n := file.nblks;
    if n >= L1 {
      assert SubOk(f, file, cache, owner, n + 1, (n - L1) / 1024);
    }
    var file', cache' := PutFile(file, ino, size), PutCache(file, cache, ino);
    var next := n + 1;
    forall j | 0 <= j < ENTRIES
      ensures SubOk(f, file', cache', owner, next, j)
    {
      assert SubOk(f, file, cache, owner, n + 1, j);
    }
    forall k | 0 <= k <= n
      ensures Lookup(file', cache', k) == (appended + [ino])[k]
    {
      PutLookup(f, file, cache, owner, ino, size, k);
      assert k < n ==> Lookup(file, cache, k) == appended[k];
    }
  }

  lemma PutLookup(f: nat, file: File, cache: Index, owner: map<nat, Role>, ino: nat, size: nat, k: nat)
    requires CacheOk(cache, owner) && Room(f, file, cache, owner, file.nblks + 1) && k <= file.nblks
    requires file.nblks >= L0 ==> file.l1 in cache && |cache[file.l1]| == ENTRIES
    ensures Lookup(PutFile(file, ino, size), PutCache(file, cache, ino), k) ==
      if k == file.nblks then ino else Lookup(file, cache, k)
  {
    var n := file.nblks;
    if n >= L1 {
      assert SubOk(f, file, cache, owner, n + 1, (n - L1) / 1024);
      if k >= L1 {
        assert SubOk(f, file, cache, owner, n + 1, (k - L1) / 1024);
      }
    }
  }

  /** A cached inode without blocks. */
  function NewFile(): File {
    File(0, seq(L0, i => 0), 0, 0, 0, 0, 0, 0)
  }

  lemma NewFileOk(f: nat, cache: Index, owner: map<nat, Role>)
    requires CacheOk(cache, owner)
    ensures FileOk(f, NewFile(), cache, owner, [])
  {
    forall j | 0 <= j < ENTRIES
      ensures SubOk(f, NewFile(), cache, owner, 0, j)
    {
    }
  }

  // ---------- the image ----------

  /** What a block of the image holds. */
  datatype Content<D> =
    | Super(blocks: nat, unused: int)
    | FreeBits(bits: seq<bool>)
    | Inode(file: File)
    | IndexBlock(entries: seq<nat>)
    | Data(data: D)

  /** What a data block is for. */
  datatype Place = Place(file: nat, k: nat)

  /** Entry i of block b, read from the image. */
  function ReadEntry<D>(image: map<nat, Content<D>>, b: nat, i: nat): nat {
    if b in image && image[b].IndexBlock? then Entry(image[b].entries, i) else 0
  }

  /** The number of block k of a file, read from the image. */
  function ReadLookup<D>(image: map<nat, Content<D>>, file: File, k: nat): nat {
    if k < L0 then Entry(file.direct, k)
    else if k < L1 then ReadEntry(image, file.indirect, k - L0)
    else ReadEntry(image, ReadEntry(image, file.dbIndirect, (k - L1) / 1024), (k - L1) % 1024)
  }

  /** Block k of the file whose inode is block f, as a reader of the image finds it. */
  function Read<D>(image: map<nat, Content<D>>, f: nat, k: nat): Option<Content<D>> {
    if f in image && image[f].Inode? && k < image[f].file.blocks then
      var b := ReadLookup(image, image[f].file, k);
      if b in image then Some(image[b]) else None
    else None
  }

  /** The index blocks of the cache are in the image, and the super block is not one of them. */
  ghost predicate Flushed<D>(image: map<nat, Content<D>>, cache: Index) {
    && 0 in image && image[0].Super?
    && forall b {:trigger b in cache} :: b in cache ==> b in image && image[b] == IndexBlock(cache[b])
  }

  /** Reading the index from the image and from the cache is the same. */
  lemma ReadIsLookup<D>(image: map<nat, Content<D>>, f: nat, file: File, cache: Index, owner: map<nat, Role>,
                        appended: seq<nat>, k: nat)
    requires Flushed(image, cache) && CacheOk(cache, owner) && FileOk(f, file, cache, owner, appended) && k < |appended|
    ensures ReadLookup(image, file, k) == appended[k]
  {
    assert Lookup(file, cache, k) == appended[k];
    if k >= L1 {
      assert SubOk(f, file, cache, owner, file.nblks, (k - L1) / 1024);
    }
  }

  // ---------- who has which block ----------

  /** Number b was given out: it is the root inode, or after the free map. */
  predicate Given(ninos: nat, nextIno: nat, b: nat) {
    b == ROOT || FirstFree(ninos) <= b < nextIno
  }

  /** Each number that was given out is an inode, an index block or a data block, and only one of them. */
  ghost predicate Apart(ninos: nat, nextIno: nat, inodes: set<nat>, index: set<nat>, places: map<nat, Place>) {
    && (forall b {:trigger Given(ninos, nextIno, b)} :: Given(ninos, nextIno, b) <==>
         b in inodes || b in index || b in places)
    && inodes !! index && inodes !! places.Keys && index !! places.Keys
  }

  ghost function Between(lo: nat, hi: nat): set<nat> {
    AllBelow(hi) - AllBelow(lo)
  }

  /** What is in use was given out. */
  lemma InUseIsGiven(ninos: nat, nextIno: nat, inodes: set<nat>, index: set<nat>, places: map<nat, Place>)
    requires Apart(ninos, nextIno, inodes, index, places)
    ensures forall b: nat :: b in inodes || b in index || b in places ==> b == ROOT || FirstFree(ninos) <= b < nextIno
  {
    forall b: nat | b in inodes || b in index || b in places
      ensures b == ROOT || FirstFree(ninos) <= b < nextIno
    {
      assert Given(ninos, nextIno, b);
    }
  }

  lemma GivenInode(ninos: nat, f: nat, inodes: set<nat>, index: set<nat>, places: map<nat, Place>)
    requires Apart(ninos, f, inodes, index, places) && FirstFree(ninos) <= f
    ensures f !in inodes && Apart(ninos, f + 1, inodes + {f}, index, places)
  {
    InUseIsGiven(ninos, f, inodes, index, places);
    forall b: nat
      ensures Given(ninos, f + 1, b) <==> b in inodes + {f} || b in index || b in places
    {
      assert Given(ninos, f, b) <==> b in inodes || b in index || b in places;
    }
  }

  /** A data block, and the index blocks given out for it. */
  lemma GivenData(ninos: nat, first: nat, last: nat, inodes: set<nat>, index: set<nat>, places: map<nat, Place>,
                  p: Place)
    requires Apart(ninos, first, inodes, index, places) && FirstFree(ninos) <= first < last
    ensures first !in places && Apart(ninos, last, inodes, index + Between(first + 1, last), places[first := p])
  {
    InUseIsGiven(ninos, first, inodes, index, places);
    forall b: nat
      ensures Given(ninos, last, b) <==> b in inodes || b in index + Between(first + 1, last) || b in places[first := p]
    {
      assert Given(ninos, first, b) <==> b in inodes || b in index || b in places;
    }
  }

  /** Block k of file f is at its number, which nothing else has, and holds what was written. */
  ghost predicate WrittenAt<D>(image: map<nat, Content<D>>, places: map<nat, Place>, f: nat, k: nat, b: nat, data: D) {
    b in places && places[b] == Place(f, k) && b in image && image[b] == Data(data)
  }

  ghost predicate FileWritten<D>(image: map<nat, Content<D>>, places: map<nat, Place>, f: nat, appended: seq<nat>,
                                 written: seq<D>) {
    && |written| == |appended|
    && forall k {:trigger WrittenAt(image, places, f, k, appended[k], written[k])} ::
         0 <= k < |appended| ==> WrittenAt(image, places, f, k, appended[k], written[k])
  }

  ghost predicate AllWritten<D>(image: map<nat, Content<D>>, places: map<nat, Place>,
                                appended: map<nat, seq<nat>>, written: map<nat, seq<D>>) {
    && written.Keys == appended.Keys
    && forall f {:trigger FileWritten(image, places, f, appended[f], written[f])} ::
         f in appended ==> FileWritten(image, places, f, appended[f], written[f])
  }

  /** A number that is not a data block may be written to. */
  lemma StillWritten<D>(image: map<nat, Content<D>>, places: map<nat, Place>, appended: map<nat, seq<nat>>,
                        written: map<nat, seq<D>>, image': map<nat, Content<D>>)
    requires AllWritten(image, places, appended, written)
    requires forall b :: b in places && b in image ==> b in image' && image'[b] == image[b]
    ensures AllWritten(image', places, appended, written)
  {
    forall f | f in appended
      ensures FileWritten(image', places, f, appended[f], written[f])
    {
      assert FileWritten(image, places, f, appended[f], written[f]);
      forall k | 0 <= k < |appended[f]|
        ensures WrittenAt(image', places, f, k, appended[f][k], written[f][k])
      {
        assert WrittenAt(image, places, f, k, appended[f][k], written[f][k]);
      }
    }
  }

  /** One more data block. */
  lemma WrittenMore<D>(image: map<nat, Content<D>>, places: map<nat, Place>, appended: map<nat, seq<nat>>,
                       written: map<nat, seq<D>>, f: nat, b: nat, data: D)
    requires AllWritten(image, places, appended, written) && b !in places && f in appended
    ensures AllWritten(image[b := Data(data)], places[b := Place(f, |appended[f]|)],
                       appended[f := appended[f] + [b]], written[f := written[f] + [data]])
  {
    var image', places' := image[b := Data(data)], places[b := Place(f, |appended[f]|)];
    var appended', written' := appended[f := appended[f] + [b]], written[f := written[f] + [data]];
    forall g | g in appended'
      ensures FileWritten(image', places', g, appended'[g], written'[g])
    {
      assert FileWritten(image, places, g, appended[g], written[g]);
      forall k | 0 <= k < |appended'[g]|
        ensures WrittenAt(image', places', g, k, appended'[g][k], written'[g][k])
      {
        if g != f || k < |appended[f]| {
          assert WrittenAt(image, places, g, k, appended[g][k], written[g][k]);
        }
      }
    }
  }

  // ---------- the builder ----------

  class Sfs<D> {
    const ninos: nat                  // blocks of the image
    var nextIno: nat                  // the first block that is not given out
    var unusedBlocks: int             // super.unused_blocks
    var files: map<nat, File>         // the cached inodes, by number
    var cache: Index                  // the cached index blocks, by number
    var image: map<nat, Content<D>>   // what was written to the image
    ghost var owner: map<nat, Role>
    ghost var appended: map<nat, seq<nat>>
    ghost var places: map<nat, Place>
    ghost var written: map<nat, seq<D>>

    /** The counters and the block indexes. */
    ghost predicate IndexOk()
      reads `nextIno, `unusedBlocks, `files, `cache, `owner, `appended
    {
      && nextIno <= ninos && unusedBlocks == ninos - nextIno && nextIno > 0
      && CacheOk(cache, owner) && (forall b :: b in cache ==> b < nextIno)
      && files.Keys == appended.Keys
      && AllOk(files, cache, owner, appended)
    }

    /** No number is used twice or lost, and the data is in the image. */
    ghost predicate Valid()
      reads this
    {
      && IndexOk() && FirstFree(ninos) <= nextIno && ROOT in files
      && Apart(ninos, nextIno, files.Keys, cache.Keys, places)
      && AllWritten(image, places, appended, written)
    }

    /** The builder with the root directory. */
    constructor (blocks: nat)
      requires FirstFree(blocks) < blocks
      ensures Valid() && files.Keys == {ROOT} && written == map[ROOT := []] && image == map[]
      ensures ninos == blocks && nextIno == FirstFree(blocks)
    {
      ninos, nextIno, unusedBlocks := blocks, FirstFree(blocks), blocks - FirstFree(blocks);
      files, cache, image := map[ROOT := NewFile()], map[], map[];
      owner, appended, places, written := map[], map[ROOT := []], map[], map[ROOT := []];
      new;
      NewFileOk(ROOT, cache, owner);
    }

    /** sfs_alloc_ino: a number that was not given out before; 0 when the program ends for lack of space. */
    method AllocIno() returns (ino: nat)
      requires IndexOk()
      modifies `nextIno, `unusedBlocks
      ensures IndexOk() && (ino == 0 <==> old(nextIno) == ninos)
      ensures ino != 0 ==> ino == old(nextIno) < ninos && nextIno == ino + 1 && ino !in cache
      ensures ino == 0 ==> nextIno == old(nextIno)
    {
      if nextIno < ninos {
        unusedBlocks := unusedBlocks - 1;
        nextIno := nextIno + 1;
        return nextIno - 1;
      }
      ino := 0;
    }

    /** alloc_cache_inode of a new file, which gets a block for its inode; 0 when the program
        ends because none is left. */
    method AddFile() returns (f: nat)
      requires Valid()
      modifies `nextIno, `unusedBlocks, `files, `appended, `written
      ensures f == 0 <==> old(nextIno) == ninos
      ensures f != 0 ==> Valid() && f == old(nextIno) && nextIno == f + 1 && f !in old(files)
      ensures f != 0 ==> files == old(files)[f := NewFile()] && written == old(written)[f := []]
    {
      f := AllocIno();
      if f != 0 {
        ghost var appended0, written0, inodes0 := appended, written, files.Keys;
        GivenInode(ninos, f, inodes0, cache.Keys, places);
        NewFileOk(f, cache, owner);
        files, appended, written := files[f := NewFile()], appended[f := []], written[f := []];
        assert files.Keys == inodes0 + {f};
        forall g | g in appended
          ensures FileWritten(image, places, g, appended[g], written[g])
        {
          assert g != f ==> FileWritten(image, places, g, appended0[g], written0[g]);
        }
      }
    }

    /** A block of data for file f: sfs_alloc_ino, write_block and append_block, as open_file,
        open_link and add_entry do; false when the program ends, because the file is too big
        or no blocks are left. */
    method AppendData(f: nat, size: nat, data: D) returns (ok: bool)
      requires Valid() && f in files && size <= 4096
      modifies this
      ensures ok <==>
        old(files)[f].nblks < MAX_BLOCKS && old(nextIno) + 1 + NewIndexBlocks(old(files)[f].nblks) <= ninos
      ensures ok ==> Valid() && written == old(written)[f := old(written)[f] + [data]]
      ensures ok ==> nextIno == old(nextIno) + 1 + NewIndexBlocks(old(files)[f].nblks)
      ensures ok ==> f in files && files == old(files)[f := files[f]] && files[f].size == old(files)[f].size + size
    {
      var ino := AllocIno();
      ok := ino != 0;
      if ok {
        ok := Store(f, size, data, ino);
      }
    }

    /** write_block and append_block of block ino, which was just given out. */
    method Store(f: nat, size: nat, data: D, ino: nat) returns (ok: bool)
      requires IndexOk() && f in files && size <= 4096 && ROOT in files && nextIno == ino + 1 && FirstFree(ninos) <= ino
      requires Apart(ninos, ino, files.Keys, cache.Keys, places) && AllWritten(image, places, appended, written)
      modifies this
      ensures ok <==> old(files)[f].nblks < MAX_BLOCKS && old(nextIno) + NewIndexBlocks(old(files)[f].nblks) <= ninos
      ensures ok ==> Valid() && f in old(written) && written == old(written)[f := old(written)[f] + [data]]
      ensures ok ==> nextIno == old(nextIno) + NewIndexBlocks(old(files)[f].nblks)
      ensures ok ==> f in files && files == old(files)[f := files[f]] && files[f].size == old(files)[f].size + size
    {
      ghost var image0, appended0, index0, inodes := image, appended, cache.Keys, files.Keys;
      ghost var next := nextIno;
      image := image[ino := Data(data)];
      ok := AppendBlock(f, size, ino);
      if ok {
        Record(f, data, image0, appended0, inodes, index0, ino, next);
      }
    }

    /** Block first, the data, is the one that was appended to f; the rest given out is index blocks. */
    ghost method Record(f: nat, data: D, image0: map<nat, Content<D>>, appended0: map<nat, seq<nat>>,
                        inodes: set<nat>, index0: set<nat>, first: nat, next: nat)
      requires next == first + 1 && IndexOk() && f in appended0 && appended == appended0[f := appended0[f] + [first]]
      requires files.Keys == inodes && ROOT in inodes && cache.Keys == index0 + Between(next, nextIno)
      requires FirstFree(ninos) <= first < nextIno && Apart(ninos, first, inodes, index0, places)
      requires AllWritten(image0, places, appended0, written) && image == image0[first := Data(data)]
      modifies `places, `written
      ensures Valid() && f in old(written) && written == old(written)[f := old(written)[f] + [data]]
    {
      var p := Place(f, |appended0[f]|);
      GivenData(ninos, first, nextIno, inodes, index0, places, p);
      WrittenMore(image0, places, appended0, written, f, first, data);
      places, written := places[first := p], written[f := written[f] + [data]];
    }

    /** update_cache: the index block that a field naming ino needs, allocated if the field
        is 0; cb is the block the cached pointer names, and the search is never done. */
    method UpdateCache(cb: nat, ino: nat) returns (block: nat)
      requires IndexOk() && (ino != 0 ==> cb == ino)
      modifies `nextIno, `unusedBlocks
      ensures IndexOk() && (ino != 0 ==> block == ino && nextIno == old(nextIno))
      ensures ino == 0 ==> (block == 0 <==> old(nextIno) == ninos)
      ensures ino == 0 && block != 0 ==> block == old(nextIno) && nextIno == block + 1 && block !in cache
      ensures block == 0 ==> nextIno == old(nextIno)
    {
      if ino == 0 {
        block := AllocIno();
      } else {
        assert !(cb == 0 || cb != ino);
        block := ino;
      }
    }

    /** append_block of block ino; false when the program ends, because the file is too big or no
        blocks are left. The blocks given out are the new index blocks. */
    method AppendBlock(f: nat, size: nat, ino: nat) returns (ok: bool)
      requires IndexOk() && f in files && size <= 4096
      modifies `nextIno, `unusedBlocks, `files, `cache, `owner, `appended
      ensures ok <==>
        old(files)[f].nblks < MAX_BLOCKS && old(nextIno) + NewIndexBlocks(old(files)[f].nblks) <= ninos
      ensures ok ==> IndexOk() && appended == old(appended)[f := old(appended)[f] + [ino]]
      ensures ok ==> nextIno == old(nextIno) + NewIndexBlocks(old(files)[f].nblks)
      ensures ok ==> cache.Keys == old(cache).Keys + Between(old(nextIno), nextIno)
      ensures ok ==> f in files && files == old(files)[f := files[f]] && files[f].size == old(files)[f].size + size
    {
      if files[f].nblks >= MAX_BLOCKS {
        return false;
      }
      ok := MakeRoom(f);
      if ok {
        Write(f, size, ino);
      }
    }

    /** Only f is between two valid states: it has room for m blocks. */
    ghost predicate Growing(f: nat, m: nat)
      reads `nextIno, `unusedBlocks, `files, `cache, `owner, `appended
    {
      && nextIno <= ninos && unusedBlocks == ninos - nextIno && nextIno > 0
      && CacheOk(cache, owner) && (forall b :: b in cache ==> b < nextIno)
      && files.Keys == appended.Keys && f in files
      && Room(f, files[f], cache, owner, m) && Holds(files[f], cache, appended[f])
      && OthersOk(f, files, cache, owner, appended)
    }

    lemma OthersStay(f: nat, files0: map<nat, File>, cache0: Index, owner0: map<nat, Role>)
      requires CacheOk(cache0, owner0) && CacheOk(cache, owner) && OthersKept(cache0, owner0, cache, owner, f)
      requires files.Keys == files0.Keys == appended.Keys && forall g :: g in files && g != f ==> files[g] == files0[g]
      requires OthersOk(f, files0, cache0, owner0, appended)
      ensures OthersOk(f, files, cache, owner, appended)
    {
      forall g | g in files && g != f
        ensures FileOk(g, files[g], cache, owner, appended[g])
      {
        assert FileOk(g, files0[g], cache0, owner0, appended[g]);
        OtherFile(g, files0[g], cache0, owner0, cache, owner, f, appended[g]);
      }
    }

    /** The calls of update_cache in append_block. */
    method MakeRoom(f: nat) returns (ok: bool)
      requires IndexOk() && f in files && files[f].nblks < MAX_BLOCKS
      modifies `nextIno, `unusedBlocks, `files, `cache, `owner
      ensures ok <==> old(nextIno) + NewIndexBlocks(old(files)[f].nblks) <= ninos
      ensures ok ==> SameButIndex(f, old(files)) && Growing(f, files[f].nblks + 1)
      ensures ok ==> nextIno == old(nextIno) + NewIndexBlocks(files[f].nblks)
      ensures ok ==> cache.Keys == old(cache).Keys + Between(old(nextIno), nextIno)
    {
      assert FileOk(f, files[f], cache, owner, appended[f]);
      var file := files[f];
      var n := file.nblks;
      if n < L0 {
        RoomLeft(f, file, cache, owner, n);
        ok := true;
      } else if n < L1 {
        ok := RoomInIndirect(f);
      } else {
        ok := RoomInDouble(f);
      }
    }

    /** Only the index fields of f differ. */
    ghost predicate SameButIndex(f: nat, files0: map<nat, File>)
      reads `files
    {
      && f in files && f in files0 && files == files0[f := files[f]]
      && files[f].nblks == files0[f].nblks && files[f].size == files0[f].size
    }

    method RoomInIndirect(f: nat) returns (ok: bool)
      requires IndexOk() && f in files && L0 <= files[f].nblks < L1
      modifies `nextIno, `unusedBlocks, `files, `cache, `owner
      ensures ok <==> old(nextIno) + NewIndexBlocks(old(files)[f].nblks) <= ninos
      ensures ok ==> SameButIndex(f, old(files)) && Growing(f, files[f].nblks + 1)
      ensures ok ==> nextIno == old(nextIno) + NewIndexBlocks(files[f].nblks)
      ensures ok ==> cache.Keys == old(cache).Keys + Between(old(nextIno), nextIno)
    {
      assert FileOk(f, files[f], cache, owner, appended[f]);
      var file := files[f];
      var b := UpdateCache(file.l1, file.indirect);
      if b == 0 {
        return false;
      }
      if file.indirect == 0 {
        AddIndirect(f, b);
      } else {
        RoomLeft(f, file, cache, owner, file.nblks);
      }
      ok := true;
    }

    /** The indirect block b. */
    method AddIndirect(f: nat, b: nat)
      requires IndexOk() && f in files && files[f].nblks == L0 && b !in cache && 0 < b < nextIno
      modifies `files, `cache, `owner
      ensures SameButIndex(f, old(files)) && Growing(f, L0 + 1) && cache.Keys == old(cache).Keys + {b}
    {
      assert FileOk(f, files[f], cache, owner, appended[f]);
      var file := files[f];
      ghost var files0, cache0, owner0 := files, cache, owner;
      FirstIndirect(f, file, cache, owner, b, appended[f]);
      cache, owner := cache[b := Zeros()], owner[b := Indirect(f)];
      files := files[f := file.(indirect := b, l1 := b)];
      OthersStay(f, files0, cache0, owner0);
    }

    method RoomInDouble(f: nat) returns (ok: bool)
      requires IndexOk() && f in files && L1 <= files[f].nblks < MAX_BLOCKS
      modifies `nextIno, `unusedBlocks, `files, `cache, `owner
      ensures ok <==> old(nextIno) + NewIndexBlocks(old(files)[f].nblks) <= ninos
      ensures ok ==> SameButIndex(f, old(files)) && Growing(f, files[f].nblks + 1)
      ensures ok ==> nextIno == old(nextIno) + NewIndexBlocks(files[f].nblks)
      ensures ok ==> cache.Keys == old(cache).Keys + Between(old(nextIno), nextIno)
    {
      var d, c;
      ok, d, c := TwoLevels(f);
      if ok {
        AddLevels(f, d, c);
      }
    }

    /** The two calls of update_cache. */
    method TwoLevels(f: nat) returns (ok: bool, d: nat, c: nat)
      requires IndexOk() && f in files && L1 <= files[f].nblks < MAX_BLOCKS
      modifies `nextIno, `unusedBlocks
      ensures IndexOk() && (ok <==> old(nextIno) + NewIndexBlocks(files[f].nblks) <= ninos)
      ensures ok ==> nextIno == old(nextIno) + NewIndexBlocks(files[f].nblks)
      ensures ok ==> Between(old(nextIno), nextIno) == LevelsFor(files[f].nblks, d, c)
      ensures ok ==> LevelsFor(files[f].nblks, d, c) !! cache.Keys + {0}
      ensures ok && files[f].nblks == L1 ==> d != c
    {
      var file := files[f];
      var q := (file.nblks - L1) / 1024;
      c := 0;
      DoubleNeeds(f);
      d := UpdateCache(file.l2, file.dbIndirect);
      if d == 0 {
        return false, 0, 0;
      }
      var entry := if file.dbIndirect == 0 then 0 else EntryOf(cache, d, q);
      c := UpdateCache(file.l1, entry);
      ok := c != 0;
    }

    /** The index blocks that the two calls of update_cache gave. */
    method AddLevels(f: nat, d: nat, c: nat)
      requires IndexOk() && f in files && L1 <= files[f].nblks < MAX_BLOCKS
      requires LevelsFor(files[f].nblks, d, c) !! cache.Keys + {0} && (files[f].nblks == L1 ==> d != c)
      requires forall b :: b in LevelsFor(files[f].nblks, d, c) ==> b < nextIno
      modifies `files, `cache, `owner
      ensures SameButIndex(f, old(files)) && Growing(f, files[f].nblks + 1)
      ensures cache.Keys == old(cache).Keys + LevelsFor(old(files)[f].nblks, d, c)
    {
      DoubleNeeds(f);
      var file := files[f];
      if file.dbIndirect == 0 {
        AddDouble(f, d, c);
      } else if EntryOf(cache, file.dbIndirect, (file.nblks - L1) / 1024) == 0 {
        AddSub(f, c);
      } else {
        NothingNeeded(f);
      }
    }

    /** Which index blocks of f are missing when it grows beyond the indirect block. */
    lemma DoubleNeeds(f: nat)
      requires IndexOk() && f in files && L1 <= files[f].nblks < MAX_BLOCKS
      ensures
        var file := files[f];
        var entry := EntryOf(cache, file.dbIndirect, (file.nblks - L1) / 1024);
        && (file.dbIndirect == 0 <==> file.nblks == L1) && file.l2 == file.dbIndirect
        && (entry == 0 <==> (file.nblks - L1) % 1024 == 0) && (entry != 0 ==> file.l1 == entry)
    {
      var file := files[f];
      assert FileOk(f, file, cache, owner, appended[f]);
      assert SubOk(f, file, cache, owner, file.nblks, (file.nblks - L1) / 1024);
    }

    /** The index blocks of f leave room for one more block. */
    lemma NothingNeeded(f: nat)
      requires IndexOk() && f in files && files[f].nblks < MAX_BLOCKS && NewIndexBlocks(files[f].nblks) == 0
      ensures Growing(f, files[f].nblks + 1)
    {
      assert FileOk(f, files[f], cache, owner, appended[f]);
      RoomLeft(f, files[f], cache, owner, files[f].nblks);
    }

    /** The double indirect block d, with c as the first block that it names. */
    method AddDouble(f: nat, d: nat, c: nat)
      requires IndexOk() && f in files && files[f].nblks == L1
      requires d !in cache && c !in cache && d != c && 0 < d < nextIno && 0 < c < nextIno
      modifies `files, `cache, `owner
      ensures SameButIndex(f, old(files)) && Growing(f, L1 + 1) && cache.Keys == old(cache).Keys + {d, c}
    {
      assert FileOk(f, files[f], cache, owner, appended[f]);
      var file := files[f];
      ghost var files0, cache0, owner0 := files, cache, owner;
      FirstDouble(f, file, cache, owner, d, c, appended[f]);
      cache, owner := cache[d := SetEntry(Zeros(), 0, c)][c := Zeros()], owner[d := Double(f)][c := Sub(f, 0)];
      files := files[f := file.(dbIndirect := d, l2 := d, l1 := c)];
      OthersStay(f, files0, cache0, owner0);
    }

    /** The next block c that the double indirect block names. */
    method AddSub(f: nat, c: nat)
      requires IndexOk() && f in files && L1 < files[f].nblks < MAX_BLOCKS && (files[f].nblks - L1) % 1024 == 0
      requires c !in cache && 0 < c < nextIno
      modifies `files, `cache, `owner
      ensures SameButIndex(f, old(files)) && Growing(f, files[f].nblks + 1) && cache.Keys == old(cache).Keys + {c}
    {
      assert FileOk(f, files[f], cache, owner, appended[f]);
      var file := files[f];
      var n, q, d := file.nblks, (file.nblks - L1) / 1024, file.dbIndirect;
      ghost var files0, cache0, owner0 := files, cache, owner;
      NextSub(f, file, cache, owner, n, c, appended[f]);
      cache, owner := cache[d := SetEntry(cache[d], q, c)][c := Zeros()], owner[c := Sub(f, q)];
      files := files[f := file.(l1 := c)];
      OthersStay(f, files0, cache0, owner0);
    }

    /** The write of append_block. */
    method Write(f: nat, size: nat, ino: nat)
      requires f in files && Growing(f, files[f].nblks + 1) && files[f].nblks < MAX_BLOCKS
      modifies `files, `cache, `appended
      ensures IndexOk() && appended == old(appended)[f := old(appended)[f] + [ino]] && cache.Keys == old(cache).Keys
      ensures f in files && files == old(files)[f := files[f]] && files[f].size == old(files)[f].size + size
    {
      var file := files[f];
      ghost var files0, cache0 := files, cache;
      PutOk(f, file, cache, owner, ino, size, appended[f]);
      cache := PutCache(file, cache, ino);
      files := files[f := PutFile(file, ino, size)];
      OthersStay(f, files0, cache0, owner);
      appended := appended[f := appended[f] + [ino]];
    }

    /** The bitmap of close_sfs: bit k of block b stands for block b * BLKBITS + k, and is set
        exactly for the blocks of the image that were not given out. */
    method FreeMap() returns (bitmap: seq<seq<bool>>)
      requires IndexOk() && ninos <= MAX_NBLKS
      ensures |bitmap| == (ninos + BLKBITS - 1) / BLKBITS
      ensures forall b :: 0 <= b < |bitmap| ==> |bitmap[b]| == BLKBITS
      ensures forall b, k :: 0 <= b < |bitmap| && 0 <= k < BLKBITS ==>
        (bitmap[b][k] <==> nextIno <= b * BLKBITS + k < ninos)
    {
      bitmap := [];
      var i := 0;
      while i < ninos
        invariant i == |bitmap| * 32768 && i < ninos + 32768
        invariant forall b :: 0 <= b < |bitmap| ==> |bitmap[b]| == BLKBITS
        invariant forall b, k :: 0 <= b < |bitmap| && 0 <= k < BLKBITS ==>
          (bitmap[b][k] <==> nextIno <= b * BLKBITS + k < ninos)
        decreases ninos + 32768 - i
      {
        var block := BitBlock(i);
        bitmap := bitmap + [block];
        i := i + BLKBITS;
      }
    }

    /** One block of it, whose first bit stands for block i. */
    method BitBlock(i: nat) returns (block: seq<bool>)
      requires IndexOk() && i < ninos
      ensures |block| == BLKBITS && forall k :: 0 <= k < BLKBITS ==> (block[k] <==> nextIno <= i + k < ninos)
    {
      var bits := new bool[BLKBITS](k => false);
      ghost var first, last := 0, 0;
      if i + BLKBITS > nextIno {
        var start, end: nat := 0, BLKBITS;
        if i < nextIno {
          start := nextIno - i;
        }
        if i + BLKBITS > ninos {
          end := ninos - i;
        }
        var j := start;
        assert start <= end <= BLKBITS;
        while j < end
          invariant start <= j <= end
          invariant forall k :: 0 <= k < BLKBITS ==> (bits[k] <==> start <= k < j)
        {
          bits[j] := true;
          j := j + 1;
        }
        first, last := start, end;
      }
      block := bits[..];
      assert forall k :: 0 <= k < BLKBITS ==> (block[k] <==> first <= k < last);
    }


    /** The first loop of close_sfs. */
    method WriteFreeMap()
      requires Valid() && ninos <= MAX_NBLKS
      modifies `image
      ensures AllWritten(image, places, appended, written) && BitsWritten(FirstFree(ninos))
      ensures forall b :: b in old(image) && !(FREEMAP <= b < FirstFree(ninos)) ==>
        b in image && image[b] == old(image)[b]
    {
      var bitmap := FreeMap();
      ghost var image0 := image;
      var i := 0;
      while i < |bitmap|
        invariant 0 <= i <= |bitmap| && BitsWritten(FREEMAP + i)
        invariant forall b :: b in image0 && !(FREEMAP <= b < FREEMAP + i) ==> b in image && image[b] == image0[b]
      {
        image := image[FREEMAP + i := FreeBits(bitmap[i])];
        i := i + 1;
      }
      forall b | b in places
        ensures b >= FirstFree(ninos)
      {
        assert Given(ninos, nextIno, b) && b != ROOT;
      }
      StillWritten(image0, places, appended, written, image);
    }

    /** The blocks of the free map below number n are written. */
    ghost predicate BitsWritten(n: nat)
      reads this
    {
      forall b :: FREEMAP <= b < n ==>
        b in image && image[b].FreeBits? && BitsOf(image[b].bits, (b - FREEMAP) * BLKBITS)
    }

    /** Bit k stands for block i + k, and is set exactly for the blocks of the image that were not given out. */
    ghost predicate BitsOf(bits: seq<bool>, i: nat)
      reads `nextIno
    {
      |bits| == BLKBITS && forall k :: 0 <= k < BLKBITS ==> (bits[k] <==> nextIno <= i + k < ninos)
    }

    /** close_sfs. Nothing is written over: the image holds the super block, the free map,
        every inode, every index block and all the data. */
    method Close()
      requires Valid() && ninos <= MAX_NBLKS
      modifies `image
      ensures Valid() && Finished()
    {
      WriteFreeMap();
      WriteSuper();
      FlushBlocks();
      FlushInodes();
      forall b | b in cache || b in files
        ensures b > 0 && !(FREEMAP <= b < FirstFree(ninos))
      {
        assert Given(ninos, nextIno, b);
      }
    }

    method WriteSuper()
      requires Valid()
      modifies `image
      ensures image == old(image)[0 := Super(ninos, unusedBlocks)] && AllWritten(image, places, appended, written)
    {
      ghost var image0 := image;
      assert !Given(ninos, nextIno, 0);
      image := image[0 := Super(ninos, unusedBlocks)];
      StillWritten(image0, places, appended, written, image);
    }

    /** The cached index blocks go to the image, in any order. */
    method FlushBlocks()
      requires Valid()
      modifies `image
      ensures AllWritten(image, places, appended, written)
      ensures forall b :: b in cache ==> b in image && image[b] == IndexBlock(cache[b])
      ensures forall b :: b in old(image) && b !in cache ==> b in image && image[b] == old(image)[b]
    {
      var rest := cache.Keys;
      ghost var image0 := image;
      while rest != {}
        invariant rest <= cache.Keys
        invariant forall b :: b in cache && b !in rest ==> b in image && image[b] == IndexBlock(cache[b])
        invariant forall b :: b in image0 && b !in cache ==> b in image && image[b] == image0[b]
        decreases rest
      {
        var b :| b in rest;
        image := image[b := IndexBlock(cache[b])];
        rest := rest - {b};
      }
      StillWritten(image0, places, appended, written, image);
    }

    /** The cached inodes go to the image, in any order. */
    method FlushInodes()
      requires Valid()
      modifies `image
      ensures AllWritten(image, places, appended, written)
      ensures forall f :: f in files ==> f in image && image[f] == Inode(files[f])
      ensures forall b :: b in old(image) && b !in files ==> b in image && image[b] == old(image)[b]
    {
      var rest := files.Keys;
      ghost var image0 := image;
      while rest != {}
        invariant rest <= files.Keys
        invariant forall f :: f in files && f !in rest ==> f in image && image[f] == Inode(files[f])
        invariant forall b :: b in image0 && b !in files ==> b in image && image[b] == image0[b]
        decreases rest
      {
        var f :| f in rest;
        image := image[f := Inode(files[f])];
        rest := rest - {f};
      }
      StillWritten(image0, places, appended, written, image);
    }

    /** The finished image. */
    ghost predicate Finished()
      reads this
    {
      && Flushed(image, cache) && image[0] == Super(ninos, unusedBlocks) && BitsWritten(FirstFree(ninos))
      && forall f :: f in files ==> f in image && image[f] == Inode(files[f])
    }

    /** A reader of the finished image finds in each block of each file what was written there. */
    lemma ReadsBack(f: nat, k: nat)
      requires Valid() && Finished() && f in files && k < files[f].nblks
      ensures k < |written[f]| && Read(image, f, k) == Some(Data(written[f][k]))
    {
      assert FileWritten(image, places, f, appended[f], written[f]);
      assert FileOk(f, files[f], cache, owner, appended[f]);
      ReadIsLookup(image, f, files[f], cache, owner, appended[f], k);
      assert WrittenAt(image, places, f, k, appended[f][k], written[f][k]);
    }

    /** The free map marks exactly the blocks that nothing uses. */
    lemma FreeIsUnused(b: nat)
      requires Valid() && Finished() && b < ninos
      ensures
        var m := FREEMAP + b / BLKBITS;
        && m in image && image[m].FreeBits? && |image[m].bits| == BLKBITS
        && image[m].bits[b % BLKBITS] ==
            !(b == 0 || FREEMAP <= b < FirstFree(ninos) || b in files || b in cache || b in places)
    {
      var m := FREEMAP + b / BLKBITS;
      assert b / 32768 < (ninos + 32767) / 32768;
      assert FREEMAP <= m < FirstFree(ninos);
      assert Given(ninos, nextIno, b) <==> b in files || b in cache || b in places;
      assert (m - FREEMAP) * BLKBITS + b % BLKBITS == b;
    }
  }

  /** The first block after the super block, the root inode and the free map, which has just as many
      blocks as it takes for one bit for each block of the image. */
  function FirstFree(blocks: nat): (r: nat)
    ensures FREEMAP <= r && BLKBITS * (r - FREEMAP) - BLKBITS < blocks <= BLKBITS * (r - FREEMAP)
  {
    FREEMAP + (blocks + BLKBITS - 1) / BLKBITS
  }

  /** create_sfs for an image of that many blocks; null when the image is too small. */
  method CreateSfs<D>(imageBlocks: nat) returns (sfs: Sfs?<D>)
    ensures
      var blocks := if imageBlocks > MAX_NBLKS then MAX_NBLKS else imageBlocks;
      && (sfs == null <==> FirstFree(blocks) >= blocks)
      && (sfs != null ==>
           && fresh(sfs) && sfs.Valid() && sfs.ninos == blocks && sfs.nextIno == FirstFree(blocks)
           && sfs.files.Keys == {ROOT} && sfs.written == map[ROOT := []])
  {
    var ninos := imageBlocks;
    if ninos > MAX_NBLKS {
      ninos := MAX_NBLKS;
    }
    if FirstFree(ninos) >= ninos {
      return null;
    }
    sfs := new Sfs<D>(ninos);
  }
}
