/** The driver's per-screen state, `compat_qxl_screen_t` (src/compat/compat-qxl.h), together with
    the global image table of src/compat/compat-qxl_image.c, which the model keeps as a field of
    the screen.  The invariant `Screen.Valid` ties the table and the images to the live blocks of
    device memory. */
module QxlScreen {
  import opened Protocol
  import opened Rings
  import opened Memory
  import opened ImageTable

  /** What the driver does outside shared memory, in order: port writes (`outb`), sleeps
      (`compat_qxl_usleep`, with its timespec), the out-of-memory messages and `exit`, and the
      writes of the RAM header's update area that the next UPDATE_AREA port write hands over. */
  datatype IoEvent =
    | UpdateArea(area: Rect)
    | Outb(port: int, value: int)
    | Sleep(sec: int, nsec: int)
    | OomMessage(nth: int)
    | OutOfMemory
    | Exit(code: int)

  /** The driver has ended with `exit (1)`: nothing it does afterwards is modelled. */
  predicate Exited(events: seq<IoEvent>)
  {
    |events| > 0 && events[|events| - 1] == Exit(1)
  }

  /** Some live image's bitmap data names the chunk at `c`. */
  ghost predicate Owned(blocks: map<u64, Block>, m: RamMapping, c: u64)
  {
    exists i :: i in blocks && blocks[i].rec.ImageRec? && m.Virt(blocks[i].rec.image.bitmap.data) == c
  }

  /** Every live image's data chunk is a live chunk, and no two images share one. */
  ghost predicate ImagesOwnChunks(blocks: map<u64, Block>, m: RamMapping)
  {
    && (forall i :: i in blocks && blocks[i].rec.ImageRec? ==>
          var c := m.Virt(blocks[i].rec.image.bitmap.data);
          c in blocks && blocks[c].rec.ChunkRec?)
    && (forall i, j :: i in blocks && j in blocks && i != j && blocks[i].rec.ImageRec? && blocks[j].rec.ImageRec? ==>
          m.Virt(blocks[i].rec.image.bitmap.data) != m.Virt(blocks[j].rec.image.bitmap.data))
  }

  /** The invariant of device memory: the table is well-formed, images own their chunks, and the
      records in flight are live drawables and cursor commands. */
  ghost predicate HeapOk(m: RamMapping, blocks: map<u64, Block>, table: seq<seq<ImageInfo>>, inFlight: set<u64>)
  {
    && TableOk(table, blocks)
    && ImagesOwnChunks(blocks, m)
    && inFlight <= blocks.Keys
    && (forall a :: a in inFlight ==> blocks[a].rec.DrawableRec? || blocks[a].rec.CursorCmdRec?)
  }

  /** The image a record names as its source, when the record is a COPY drawable whose union is
      the copy arm: the image the collector destroys when it releases the drawable. */
  function CopySourceOf(m: RamMapping, r: Record): Option<u64>
  {
    if r.DrawableRec? && r.drawable.drawType == QXL_DRAW_COPY && r.drawable.body.Copy?
    then Some(m.Virt(U64ToPointer(r.drawable.body.srcBitmap)))
    else None
  }

  /** The live COPY drawables whose source is the image at `x`. */
  ghost function Referrers(m: RamMapping, b: map<u64, Block>, x: u64): set<u64>
  {
    set a | a in b && CopySourceOf(m, b[a].rec) == Some(x)
  }

  predicate LiveImage(b: map<u64, Block>, x: u64)
  {
    x in b && b[x].rec.ImageRec?
  }

  /** A record that is no image and names none as a COPY source. */
  predicate Unreferencing(r: Record)
  {
    !r.ImageRec? && !(r.DrawableRec? && r.drawable.drawType == QXL_DRAW_COPY && r.drawable.body.Copy?)
  }

  /** A COPY drawable carries the copy arm of its union; every other record qualifies. */
  predicate CopyReady(r: Record)
  {
    r.DrawableRec? && r.drawable.drawType == QXL_DRAW_COPY ==> r.drawable.body.Copy?
  }

  /** Every COPY drawable names a live image. */
  ghost predicate SourcesLive(m: RamMapping, b: map<u64, Block>)
  {
    forall a :: a in b && CopySourceOf(m, b[a].rec).Some? ==> LiveImage(b, CopySourceOf(m, b[a].rec).value)
  }

  /** A cached node counts the live COPY drawables naming its image, plus the references in
      `held`. */
  ghost predicate CountsExact(m: RamMapping, b: map<u64, Block>, t: seq<seq<ImageInfo>>, held: multiset<u64>)
  {
    forall bk, k :: 0 <= bk < |t| && 0 <= k < |t[bk]| ==>
      t[bk][k].refCount == |Referrers(m, b, t[bk][k].image)| + held[t[bk][k].image]
  }

  /** An image no node holds has at most one reference, so destroying it once frees it. */
  ghost predicate UncachedSingle(m: RamMapping, b: map<u64, Block>, t: seq<seq<ImageInfo>>, held: multiset<u64>)
  {
    forall x :: LiveImage(b, x) && !InTable(t, x) ==> |Referrers(m, b, x)| + held[x] <= 1
  }

  /** A drawable in flight that the collector takes for a COPY carries the copy arm. */
  ghost predicate InFlightReady(b: map<u64, Block>, f: set<u64>)
  {
    forall a :: a in f && a in b ==> CopyReady(b[a].rec)
  }

  /** The reference counts of the image cache are exact.  `held` are the references
      `compat_qxl_image_create` handed out that are not yet written into a drawable; each names
      a live image. */
  ghost predicate RefsOk(m: RamMapping, b: map<u64, Block>, t: seq<seq<ImageInfo>>, f: set<u64>, held: multiset<u64>)
  {
    && SourcesLive(m, b)
    && (forall x :: x in held ==> LiveImage(b, x))
    && CountsExact(m, b, t, held)
    && UncachedSingle(m, b, t, held)
    && InFlightReady(b, f)
  }

  /** Changing the block at `c` between records that are no image and name none keeps the counts
      exact, as does taking records out of flight, as long as what stays in flight at `c` is
      ready. */
  lemma RefsOkUpdate(m: RamMapping, b: map<u64, Block>, t: seq<seq<ImageInfo>>, f: set<u64>, held: multiset<u64>,
                     b': map<u64, Block>, f': set<u64>, c: u64)
    requires RefsOk(m, b, t, f, held)
    requires b' - {c} == b - {c} && f' <= f
    requires c in b ==> Unreferencing(b[c].rec)
    requires c in b' ==> Unreferencing(b'[c].rec)
    requires c in f' && c in b' ==> CopyReady(b'[c].rec)
    ensures RefsOk(m, b', t, f', held)
  {
    forall a | a != c
      ensures (a in b' <==> a in b) && (a in b ==> b'[a] == b[a])
    {
      assert a in b' <==> a in b' - {c};
      assert a in b <==> a in b - {c};
      if a in b {
        assert (b' - {c})[a] == (b - {c})[a];
      }
    }
    forall x
      ensures Referrers(m, b', x) == Referrers(m, b, x)
    {
    }
    forall x
      ensures LiveImage(b', x) <==> LiveImage(b, x)
    {
    }
  }

  /** Handing a ready record to the device keeps the counts exact. */
  lemma RefsOkPush(m: RamMapping, b: map<u64, Block>, t: seq<seq<ImageInfo>>, f: set<u64>, held: multiset<u64>, a: u64)
    requires RefsOk(m, b, t, f, held) && a in b && CopyReady(b[a].rec)
    ensures RefsOk(m, b, t, f + {a}, held)
  {
  }

  /** With no block, no node and nothing held, the counts are exact. */
  lemma RefsOkEmpty(m: RamMapping, t: seq<seq<ImageInfo>>, f: set<u64>)
    requires forall bk :: 0 <= bk < |t| ==> t[bk] == []
    ensures RefsOk(m, map[], t, f, multiset{})
  {
  }

  /** A block the release collector never frees: one the device has not been handed, holding
      nothing yet, a drawable, a cursor command, or a chunk no image refers to. */
  ghost predicate Kept(blocks: map<u64, Block>, inFlight: set<u64>, m: RamMapping, a: u64)
  {
    && a in blocks && a !in inFlight
    && match blocks[a].rec
       case Raw => true
       case DrawableRec(_) => true
       case CursorCmdRec(_) => true
       case ChunkRec(_) => !Owned(blocks, m, a)
       case _ => false
  }

  /** Some node of `chain` holds image `x`. */
  ghost predicate Holds(chain: seq<ImageInfo>, x: u64)
  {
    exists k :: 0 <= k < |chain| && chain[k].image == x
  }

  /** Every node of `t1` holds an image some node of the same bucket of `t0` held. */
  ghost predicate Shrinks(t0: seq<seq<ImageInfo>>, t1: seq<seq<ImageInfo>>)
  {
    && |t1| == |t0|
    && forall b, k :: 0 <= b < |t1| && 0 <= k < |t1[b]| ==> Holds(t0[b], t1[b][k].image)
  }

  /** The state `(b1, f1, t1)` arises from `(b0, f0, t0)` by collecting released records: blocks
      are only freed, never rewritten; kept blocks stay; the in-flight set and the table shrink. */
  ghost predicate Survives(m: RamMapping, b0: map<u64, Block>, f0: set<u64>, t0: seq<seq<ImageInfo>>,
                           b1: map<u64, Block>, f1: set<u64>, t1: seq<seq<ImageInfo>>)
  {
    && Submap(b1, b0)
    && (forall a :: Kept(b0, f0, m, a) ==> a in b1)
    && f1 <= f0
    && Shrinks(t0, t1)
  }

  lemma SurvivesRefl(m: RamMapping, b: map<u64, Block>, f: set<u64>, t: seq<seq<ImageInfo>>)
    ensures Survives(m, b, f, t, b, f, t)
  {
    forall bk, k | 0 <= bk < |t| && 0 <= k < |t[bk]|
      ensures Holds(t[bk], t[bk][k].image)
    {
      assert t[bk][k].image == t[bk][k].image;
    }
  }

  /** A kept block is still kept, with the same contents, after a collection. */
  lemma KeptSurvives(m: RamMapping, b0: map<u64, Block>, f0: set<u64>, t0: seq<seq<ImageInfo>>,
                     b1: map<u64, Block>, f1: set<u64>, t1: seq<seq<ImageInfo>>, a: u64)
    requires Survives(m, b0, f0, t0, b1, f1, t1) && Kept(b0, f0, m, a)
    ensures a in b1 && b1[a] == b0[a] && Kept(b1, f1, m, a)
  {
  }

  lemma {:induction false} SurvivesTrans(m: RamMapping,
                                         b0: map<u64, Block>, f0: set<u64>, t0: seq<seq<ImageInfo>>,
                                         b1: map<u64, Block>, f1: set<u64>, t1: seq<seq<ImageInfo>>,
                                         b2: map<u64, Block>, f2: set<u64>, t2: seq<seq<ImageInfo>>)
    requires Survives(m, b0, f0, t0, b1, f1, t1) && Survives(m, b1, f1, t1, b2, f2, t2)
    ensures Survives(m, b0, f0, t0, b2, f2, t2)
  {
    forall a | Kept(b0, f0, m, a)
      ensures a in b2
    {
      KeptSurvives(m, b0, f0, t0, b1, f1, t1, a);
    }
    forall bk, k | 0 <= bk < |t2| && 0 <= k < |t2[bk]|
      ensures Holds(t0[bk], t2[bk][k].image)
    {
      var k1 :| 0 <= k1 < |t1[bk]| && t1[bk][k1].image == t2[bk][k].image;
      var k0 :| 0 <= k0 < |t0[bk]| && t0[bk][k0].image == t1[bk][k1].image;
      assert t0[bk][k0].image == t2[bk][k].image;
    }
  }

  /** A lookup that missed in `(t0, b0)` still misses in a table that only lost nodes and whose
      images kept their keys. */
  lemma MissPersists(t0: seq<seq<ImageInfo>>, b0: map<u64, Block>, t1: seq<seq<ImageInfo>>,
                     b1: map<u64, Block>, bucket: nat, key: Key)
    requires Shrinks(t0, t1) && bucket < |t0|
    requires forall k :: 0 <= k < |t1[bucket]| ==> KeyAt(b1, t1[bucket][k].image) == KeyAt(b0, t1[bucket][k].image)
    requires LookupChain(t0[bucket], b0, key).None?
    ensures LookupChain(t1[bucket], b1, key).None?
  {
    forall k | 0 <= k < |t1[bucket]|
      ensures !Matches(b1, t1[bucket][k], key)
    {
      var k' :| 0 <= k' < |t0[bucket]| && t0[bucket][k'].image == t1[bucket][k].image;
      assert !Matches(b0, t0[bucket][k'], key);
    }
  }

  lemma PrefixTrans(a: seq<IoEvent>, b: seq<IoEvent>, c: seq<IoEvent>)
    requires a <= b && b <= c
    ensures a <= c
  {
  }

  /** A record that is neither an image nor a chunk: what the command and cursor builders write. */
  predicate Plain(r: Record)
  {
    !r.ImageRec? && !r.ChunkRec?
  }

  /** Overwriting a block that holds neither an image nor a chunk with another such record keeps
      the memory invariant, as long as a record in flight stays a drawable or a cursor command. */
  lemma StorePlainKeepsHeapOk(m: RamMapping, b: map<u64, Block>, t: seq<seq<ImageInfo>>, f: set<u64>,
                              a: u64, rec: Record)
    requires HeapOk(m, b, t, f) && a in b && Plain(b[a].rec) && Plain(rec)
    requires a in f ==> rec.DrawableRec? || rec.CursorCmdRec?
    ensures HeapOk(m, b[a := Block(b[a].size, rec)], t, f)
  {
    var b' := b[a := Block(b[a].size, rec)];
    forall x | InTable(t, x)
      ensures x in b' && b'[x] == b[x]
    {
      var bk, k :| 0 <= bk < |t| && 0 <= k < |t[bk]| && t[bk][k].image == x;
      assert EntryOk(b, bk, t[bk][k]);
    }
    TableOkFrame(t, b, b');
  }

  /** A snapshot of the screen's plain fields. */
  datatype ScreenConfig = ScreenConfig(rom: Rom, ramHeader: RamHeader, fb: seq<u8>, bytesPerPixel: nat,
                                       bitsPerPixel: nat, displayWidth: nat,
                                       curX: i16, curY: i16, hotX: i16, hotY: i16)

  /** `compat_qxl_screen_t`: the parts of it the protocol engine reads and writes. */
  class Screen {
    /** `ram` and `ram_physical`. */
    const mapping: RamMapping
    const ioBase: int
    /** `mem`: the allocator's pool in device RAM. */
    const pool: Pool
    const commandRing: Ring<Command>
    const cursorRing: Ring<Command>
    const releaseRing: Ring<u64>
    /** `compat_hashlittle`, which is not part of this model. */
    const rowHash: RowHash

    /** The device's ROM; its `mode` changes behind the driver's back. */
    var rom: Rom
    var ramHeader: RamHeader
    /** The shadow framebuffer `fb` the X server renders into. */
    var fb: seq<u8>
    var bytesPerPixel: nat
    /** `pScrn->bitsPerPixel` and `pScrn->displayWidth`. */
    var bitsPerPixel: nat
    var displayWidth: nat
    /** The global `image_table`: 4096 chains, each listed from its head. */
    var table: seq<seq<ImageInfo>>
    var curX: i16
    var curY: i16
    var hotX: i16
    var hotY: i16
    /** `nth_oom`, the counter of `compat_qxl_allocnf`'s messages (a static in the source). */
    var nthOom: int
    /** The port writes, sleeps and messages so far. */
    var events: seq<IoEvent>
    /** Model bookkeeping: the records pushed to the device and not yet collected. */
    var inFlight: set<u64>
    /** Model bookkeeping: set when the device released an id that names no record in flight,
        or a record of the wrong kind (behaviour the source leaves undefined). */
    var protocolError: bool

    ghost predicate Valid()
      reads this`table, this`inFlight, pool, commandRing, cursorRing, releaseRing
    {
      && pool.Valid() && commandRing.Valid() && cursorRing.Valid() && releaseRing.Valid()
      && commandRing != cursorRing
      && commandRing.capacity == CMD_RING_SIZE && cursorRing.capacity == CURSOR_RING_SIZE
      && releaseRing.capacity == RELEASE_RING_SIZE
      && HeapOk(mapping, pool.blocks, table, inFlight)
    }

    /** `Valid` holds once the pool and the rings are well-formed and memory satisfies `HeapOk`. */
    lemma ValidFromHeap()
      requires pool.Valid() && commandRing.Valid() && cursorRing.Valid() && releaseRing.Valid()
      requires commandRing != cursorRing
      requires commandRing.capacity == CMD_RING_SIZE && cursorRing.capacity == CURSOR_RING_SIZE
      requires releaseRing.capacity == RELEASE_RING_SIZE
      requires HeapOk(mapping, pool.blocks, table, inFlight)
      ensures Valid()
    {
    }

    /** The fields the memory and table operations leave alone. */
    function Config(): ScreenConfig
      reads this
    {
      ScreenConfig(rom, ramHeader, fb, bytesPerPixel, bitsPerPixel, displayWidth, curX, curY, hotX, hotY)
    }

    /** The resources `compat_qxl_screen_init` sets up: the pool over the I/O pages and the three
        rings, of 32, 32 and 8 slots, notifying `io_base + QXL_IO_NOTIFY_CMD`,
        `io_base + QXL_IO_NOTIFY_CURSOR` and nobody. */
    constructor (mapping: RamMapping, ioBase: int, rom: Rom, ramHeader: RamHeader,
                 poolBase: u64, poolSize: nat, answer: nat -> Option<u64>, rowHash: RowHash,
                 fb: seq<u8>, bitsPerPixel: nat, displayWidth: nat)
      requires poolBase + poolSize <= WORD
      ensures Valid() && fresh(pool) && fresh(commandRing) && fresh(cursorRing) && fresh(releaseRing)
      ensures this.mapping == mapping && this.ioBase == ioBase && this.rom == rom
      ensures this.ramHeader == ramHeader && this.rowHash == rowHash && this.fb == fb
      ensures this.bitsPerPixel == bitsPerPixel && this.displayWidth == displayWidth
      ensures pool.base == poolBase && pool.size == poolSize && pool.blocks == map[] && pool.calls == 0
      ensures commandRing.items == [] && commandRing.notifyPort == ioBase + QXL_IO_NOTIFY_CMD
      ensures cursorRing.items == [] && cursorRing.notifyPort == ioBase + QXL_IO_NOTIFY_CURSOR
      ensures releaseRing.items == [] && releaseRing.notifyPort == 0
      ensures commandRing.capacity == CMD_RING_SIZE && cursorRing.capacity == CURSOR_RING_SIZE
      ensures releaseRing.capacity == RELEASE_RING_SIZE
      ensures table == seq(HASH_SIZE, _ => []) && inFlight == {} && !protocolError
      ensures bytesPerPixel == 0 && curX == 0 && curY == 0 && hotX == 0 && hotY == 0
      ensures nthOom == 1 && events == []
      ensures RefsOk(mapping, pool.blocks, table, inFlight, multiset{})
    {
      this.mapping := mapping;
      this.ioBase := ioBase;
      this.rom := rom;
      this.ramHeader := ramHeader;
      this.rowHash := rowHash;
      this.fb := fb;
      this.bitsPerPixel := bitsPerPixel;
      this.displayWidth := displayWidth;
      pool := new Pool(poolBase, poolSize, answer);
      commandRing := new Ring(CMD_RING_SIZE, ioBase + QXL_IO_NOTIFY_CMD);
      cursorRing := new Ring(CURSOR_RING_SIZE, ioBase + QXL_IO_NOTIFY_CURSOR);
      releaseRing := new Ring(RELEASE_RING_SIZE, 0);
      table := seq(HASH_SIZE, _ => []);
      bytesPerPixel := 0;
      curX, curY, hotX, hotY := 0, 0, 0, 0;
      nthOom := 1;
      events := [];
      inFlight := {};
      protocolError := false;
      new;
      RefsOkEmpty(mapping, table, inFlight);
    }
  }

  /** Writes a record that is neither an image nor a chunk into a block that holds no image and
      no chunk. */
  method StorePlain(s: Screen, a: u64, rec: Record)
    requires s.Valid() && a in s.pool.blocks && Plain(s.pool.blocks[a].rec) && Plain(rec)
    requires a in s.inFlight ==> rec.DrawableRec? || rec.CursorCmdRec?
    modifies s.pool
    ensures s.Valid() && s.pool.calls == old(s.pool.calls)
    ensures s.pool.blocks == old(s.pool.blocks)[a := Block(old(s.pool.blocks)[a].size, rec)]
  {
    StorePlainKeepsHeapOk(s.mapping, s.pool.blocks, s.table, s.inFlight, a, rec);
    s.pool.Store(a, rec);
    s.ValidFromHeap();
  }
}
