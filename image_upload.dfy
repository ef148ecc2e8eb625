/** Building and caching images: `insert_image_info` and `compat_qxl_image_create` of
    src/compat/compat-qxl_image.c.  A new image's data chunk and descriptor are allocated with
    `compat_qxl_allocnf`, which may collect released records in between; a cached image is
    reused by taking one more reference. */
module ImageUpload {
  import opened Protocol
  import opened Memory
  import opened ImageTable
  import opened QxlScreen
  import opened ImageCache
  import opened Collector

  /** The bytes allocated for a chunk of `height` rows of `destStride` bytes: the chunk header and
      the rows. */
  function ChunkSize(height: nat, destStride: nat): (n: nat)
    ensures n >= SIZEOF_DATA_CHUNK
    ensures destStride > 0 ==> (n - SIZEOF_DATA_CHUNK) / destStride == height && (n - SIZEOF_DATA_CHUNK) % destStride == 0
  {
    if destStride > 0 then RowOfOffset(height, destStride, 0); SIZEOF_DATA_CHUNK + height * destStride
    else SIZEOF_DATA_CHUNK + height * destStride
  }

  /** The data chunk a miss fills: `data_size` is the height times the row length, stored in 32
      bits; it links to no other chunk and holds the copied rows. */
  function NewChunk(height: nat, destStride: nat, bytes: seq<u8>): (c: DataChunk)
    ensures c.data == bytes && c.prevChunk == 0 && c.nextChunk == 0
    ensures |bytes| == height * destStride < 0x1_0000_0000 ==> c.dataSize as int == |c.data|
  {
    DataChunk(ToU32(height * destStride), 0, 0, bytes)
  }

  /** The descriptor a miss builds before the image is cached: id and flags 0, a top-down bitmap
      of 16-bit pixels when the screen has 2 bytes per pixel and of 32-bit pixels otherwise,
      without palette, whose data is the chunk's physical address. */
  function NewImage(m: RamMapping, chunk: u64, bytesPerPixel: nat, width: u32, height: u32): (img: Image)
    ensures KeyOfImage(img) == Key(0, width, height) && img.flags == 0
    ensures img.bitmap.x == width && img.bitmap.y == height && img.bitmap.palette == 0
    ensures img.bitmap.data == m.Phys(chunk)
    ensures RowBytes(width, bytesPerPixel) < 0x1_0000_0000 ==> img.bitmap.stride as int == RowBytes(width, bytesPerPixel)
  {
    Image(0, QXL_IMAGE_TYPE_BITMAP, 0, width, height,
          Bitmap(if bytesPerPixel == 2 then QXL_BITMAP_FMT_16BIT else QXL_BITMAP_FMT_32BIT,
                 QXL_BITMAP_TOP_DOWN, width, height, ToU32(RowBytes(width, bytesPerPixel)), 0, m.Phys(chunk)))
  }

  /** The descriptor's data translates back to the chunk it was built from, its key is its own
      size, and its format follows the depth. */
  lemma NewImageNamesChunk(m: RamMapping, chunk: u64, bytesPerPixel: nat, width: u32, height: u32)
    ensures var img := NewImage(m, chunk, bytesPerPixel, width, height);
            && m.Virt(img.bitmap.data) == chunk
            && img.width == img.bitmap.x == width && img.height == img.bitmap.y == height
            && (img.bitmap.format == QXL_BITMAP_FMT_16BIT <==> bytesPerPixel == 2)
            && (img.bitmap.format == QXL_BITMAP_FMT_32BIT <==> bytesPerPixel != 2)
  {
    VirtOfPhys(m, chunk);
  }

  /** A descriptor once it is cached under `hash`. */
  function Cached(img: Image, hash: u32): Image
  {
    img.(id := hash, flags := QXL_IMAGE_CACHE)
  }

  /** The table with a node for `a` linked at the head of the bucket of `hash`. */
  function Linked(t: seq<seq<ImageInfo>>, a: u64, hash: u32): (t': seq<seq<ImageInfo>>)
    requires |t| == HASH_SIZE
    ensures |t'| == HASH_SIZE
  {
    t[Bucket(hash) := [ImageInfo(a, 1)] + t[Bucket(hash)]]
  }

  /** A key the lookup missed is still missing after a collection, even with new blocks that are
      not in the table. */
  lemma MissSurvives(m: RamMapping, h0: Mem, h1: Mem, extra: set<u64>, hash: u32, width: u32, height: u32)
    requires |h0.table| == HASH_SIZE && TableOk(h1.table, h1.blocks)
    requires Collected(m, h0, h1.(blocks := h1.blocks - extra))
    requires forall e :: e in extra && e in h1.blocks ==> !h1.blocks[e].rec.ImageRec? || !InTable(h1.table, e)
    requires LookupImageInfo(h0.table, h0.blocks, hash, width, height).None?
    ensures LookupImageInfo(h1.table, h1.blocks, hash, width, height).None?
  {
    var bk := Bucket(hash);
    var chain := h1.table[bk];
    forall k | 0 <= k < |chain|
      ensures KeyAt(h1.blocks, chain[k].image) == KeyAt(h0.blocks, chain[k].image)
    {
      assert EntryOk(h1.blocks, bk, chain[k]);
      assert InTable(h1.table, chain[k].image);
      assert chain[k].image in h1.blocks - extra;
    }
    MissPersists(h0.table, h0.blocks, h1.table, h1.blocks, bk, Key(hash, width, height));
  }

  /** Writing a chunk into a block that holds nothing yet keeps the memory invariant, and no image
      owns the chunk. */
  lemma StoreChunkKeepsHeapOk(m: RamMapping, b: map<u64, Block>, t: seq<seq<ImageInfo>>, f: set<u64>,
                              a: u64, chunk: DataChunk)
    requires HeapOk(m, b, t, f) && a in b && b[a].rec.Raw?
    ensures var b' := b[a := Block(b[a].size, ChunkRec(chunk))];
            HeapOk(m, b', t, f) && !Owned(b', m, a)
  {
    var b' := b[a := Block(b[a].size, ChunkRec(chunk))];
    forall x | InTable(t, x)
      ensures x in b' && b'[x] == b[x]
    {
      var bk, k :| 0 <= bk < |t| && 0 <= k < |t[bk]| && t[bk][k].image == x;
      assert EntryOk(b, bk, t[bk][k]);
    }
    TableOkFrame(t, b, b');
  }

  /** Writing a descriptor whose data names a chunk no image owns into a block that holds nothing
      yet keeps the memory invariant, and the new image is not in the table. */
  lemma StoreImageKeepsHeapOk(m: RamMapping, b: map<u64, Block>, t: seq<seq<ImageInfo>>, f: set<u64>,
                              a: u64, img: Image)
    requires HeapOk(m, b, t, f) && a in b && b[a].rec.Raw?
    requires var c := m.Virt(img.bitmap.data); c in b && b[c].rec.ChunkRec? && !Owned(b, m, c)
    ensures HeapOk(m, b[a := Block(b[a].size, ImageRec(img))], t, f) && !InTable(t, a)
  {
    var b' := b[a := Block(b[a].size, ImageRec(img))];
    forall x | InTable(t, x)
      ensures x in b' && b'[x] == b[x]
    {
      var bk, k :| 0 <= bk < |t| && 0 <= k < |t[bk]| && t[bk][k].image == x;
      assert EntryOk(b, bk, t[bk][k]);
    }
    TableOkFrame(t, b, b');
    forall i, j | i in b' && j in b' && i != j && b'[i].rec.ImageRec? && b'[j].rec.ImageRec?
      ensures m.Virt(b'[i].rec.image.bitmap.data) != m.Virt(b'[j].rec.image.bitmap.data)
    {
      if i == a {
        assert !(j in b && b[j].rec.ImageRec? && m.Virt(b[j].rec.image.bitmap.data) == m.Virt(img.bitmap.data));
      } else if j == a {
        assert !(i in b && b[i].rec.ImageRec? && m.Virt(b[i].rec.image.bitmap.data) == m.Virt(img.bitmap.data));
      }
    }
  }

  /** Caching an image that is not in the table under a key the lookup misses keeps the memory
      invariant, and the lookup of that key then finds the new node, at the head of its bucket. */
  lemma InsertKeepsHeapOk(m: RamMapping, b: map<u64, Block>, t: seq<seq<ImageInfo>>, f: set<u64>,
                          a: u64, hash: u32)
    requires HeapOk(m, b, t, f) && a in b && b[a].rec.ImageRec? && !InTable(t, a)
    requires var img := b[a].rec.image; LookupImageInfo(t, b, hash, img.width, img.height).None?
    ensures var img := b[a].rec.image;
            var b' := b[a := Block(b[a].size, ImageRec(Cached(img, hash)))];
            && HeapOk(m, b', Linked(t, a, hash), f)
            && LookupImageInfo(Linked(t, a, hash), b', hash, img.width, img.height) == Some(0)
  {
    var img := b[a].rec.image;
    var b' := b[a := Block(b[a].size, ImageRec(Cached(img, hash)))];
    var bk := Bucket(hash);
    var key := Key(hash, img.width, img.height);
    forall x | InTable(t, x)
      ensures x in b' && b'[x] == b[x]
    {
    }
    TableOkFrame(t, b, b');
    forall k | 0 <= k < |t[bk]|
      ensures !Matches(b', t[bk][k], key)
    {
      assert InTable(t, t[bk][k].image);
      assert !Matches(b, t[bk][k], key);
    }
    ChainOkInsert(b', bk, t[bk], ImageInfo(a, 1));
    var t' := Linked(t, a, hash);
    assert forall c :: 0 <= c < HASH_SIZE ==> ChainOk(b', c, t'[c]) by {
      forall c | 0 <= c < HASH_SIZE
        ensures ChainOk(b', c, t'[c])
      {
        if c != bk {
          assert t'[c] == t[c];
        }
      }
    }
    assert t'[bk][0] == ImageInfo(a, 1);
  }

  /** Reusing a cached image and then destroying it gives the table back. */
  lemma ReuseThenDestroy(m: RamMapping, b: map<u64, Block>, t: seq<seq<ImageInfo>>, bk: nat, k: nat)
    requires TableOk(t, b) && bk < |t| && k < |t[bk]|
    ensures var e := t[bk][k];
            var t' := t[bk := t[bk][k := e.(refCount := e.refCount + 1)]];
            Destroyed(m, b, t', e.image) == (b, t)
  {
    var e := t[bk][k];
    var t' := t[bk := t[bk][k := e.(refCount := e.refCount + 1)]];
    ChainOkRecount(b, bk, t[bk], k, e.refCount + 1);
    assert TableOk(t', b) by {
      forall c | 0 <= c < HASH_SIZE
        ensures ChainOk(b, c, t'[c])
      {
      }
    }
    LookupFindsCachedImage(t', b, bk, k);
    assert EntryOk(b, bk, e);
    var img := b[e.image].rec.image;
    assert ToU32(img.id) == img.id;
    assert t'[bk][k := ImageInfo(e.image, e.refCount)] == t[bk];
    assert t'[bk := t[bk]] == t;
  }

  /** Destroying an image right after it was created and cached frees its chunk and descriptor and
      gives the table back. */
  lemma CreateThenDestroy(m: RamMapping, b: map<u64, Block>, t: seq<seq<ImageInfo>>, f: set<u64>,
                          a: u64, hash: u32)
    requires HeapOk(m, b, t, f) && a in b && b[a].rec.ImageRec? && !InTable(t, a)
    requires var img := b[a].rec.image; LookupImageInfo(t, b, hash, img.width, img.height).None?
    ensures var img := b[a].rec.image;
            var b' := b[a := Block(b[a].size, ImageRec(Cached(img, hash)))];
            Destroyed(m, b', Linked(t, a, hash), a) == (b' - {m.Virt(img.bitmap.data), a}, t)
  {
    var img := b[a].rec.image;
    var bk := Bucket(hash);
    InsertKeepsHeapOk(m, b, t, f, a, hash);
    forall k | 0 <= k < |t[bk]|
      ensures t[bk][k].image != a
    {
      assert !(0 <= bk < |t| && 0 <= k < |t[bk]| && t[bk][k].image == a);
    }
    UnlinkUndoesInsert(t[bk], ImageInfo(a, 1));
    assert Linked(t, a, hash)[bk := t[bk]] == t;
  }

  /** Destroying an image that was never cached frees its chunk and descriptor and leaves the table
      alone. */
  lemma UncachedDestroy(m: RamMapping, b: map<u64, Block>, t: seq<seq<ImageInfo>>, a: u64)
    requires |t| == HASH_SIZE && a in b && b[a].rec.ImageRec? && !InTable(t, a)
    ensures Destroyed(m, b, t, a) == (b - {m.Virt(b[a].rec.image.bitmap.data), a}, t)
  {
    var img := b[a].rec.image;
    var found := LookupImageInfo(t, b, ToU32(img.id), img.width, img.height);
    if found.Some? {
      var bk := Bucket(ToU32(img.id));
      assert !(0 <= bk < |t| && 0 <= found.value < |t[bk]| && t[bk][found.value].image == a);
    }
  }

  /** A collection is still a collection once a block that holds no image and names none is left
      out on both sides. */
  lemma CollectedWithout(m: RamMapping, h0: Mem, h1: Mem, c: u64)
    requires Collected(m, h0, h1) && c in h0.blocks && Unreferencing(h0.blocks[c].rec) && CopyReady(h0.blocks[c].rec)
    ensures Collected(m, h0.(blocks := h0.blocks - {c}), h1.(blocks := h1.blocks - {c}))
  {
    var b0 := h0.blocks - {c};
    if Counted(m, h0.(blocks := b0)) {
      RefsOkUpdate(m, b0, h0.table, h0.inFlight, multiset{}, h0.blocks, h0.inFlight, c);
      RefsOkUpdate(m, h1.blocks, h1.table, h1.inFlight, multiset{}, h1.blocks - {c}, h1.inFlight, c);
    }
    forall a | Kept(b0, h0.inFlight, m, a)
      ensures a in h1.blocks - {c}
    {
      if b0[a].rec.ChunkRec? {
        forall i | i in h0.blocks && h0.blocks[i].rec.ImageRec?
          ensures m.Virt(h0.blocks[i].rec.image.bitmap.data) != a
        {
          assert i in b0;
        }
      }
      assert Kept(h0.blocks, h0.inFlight, m, a);
    }
  }

  /** Writes a data chunk into a block that holds nothing yet. */
  method StoreChunk(s: Screen, a: u64, chunk: DataChunk)
    requires s.Valid() && a in s.pool.blocks && s.pool.blocks[a].rec.Raw?
    modifies s.pool
    ensures s.Valid() && s.pool.calls == old(s.pool.calls)
    ensures s.pool.blocks == old(s.pool.blocks)[a := Block(old(s.pool.blocks)[a].size, ChunkRec(chunk))]
    ensures !Owned(s.pool.blocks, s.mapping, a)
  {
    StoreChunkKeepsHeapOk(s.mapping, s.pool.blocks, s.table, s.inFlight, a, chunk);
    s.pool.Store(a, ChunkRec(chunk));
    s.ValidFromHeap();
  }

  /** Writes an image descriptor, whose data names a chunk no image owns, into a block that holds
      nothing yet. */
  method StoreImage(s: Screen, a: u64, img: Image)
    requires s.Valid() && a in s.pool.blocks && s.pool.blocks[a].rec.Raw?
    requires var c := s.mapping.Virt(img.bitmap.data);
             c in s.pool.blocks && s.pool.blocks[c].rec.ChunkRec? && !Owned(s.pool.blocks, s.mapping, c)
    modifies s.pool
    ensures s.Valid() && s.pool.calls == old(s.pool.calls)
    ensures s.pool.blocks == old(s.pool.blocks)[a := Block(old(s.pool.blocks)[a].size, ImageRec(img))]
    ensures !InTable(s.table, a)
  {
    StoreImageKeepsHeapOk(s.mapping, s.pool.blocks, s.table, s.inFlight, a, img);
    s.pool.Store(a, ImageRec(img));
    s.ValidFromHeap();
  }

  /** `insert_image_info` together with the fields `compat_qxl_image_create` sets on success:
      when the node can be allocated (`nodeAllocated`, the outcome of `malloc`), the image is
      linked at the head of the bucket of `hash` with one reference, and its descriptor gets id
      `hash` and the CACHE flag; otherwise nothing changes.  It is called only after a lookup of
      the image's key missed. */
  method InsertImageInfo(s: Screen, a: u64, hash: u32, nodeAllocated: bool) returns (linked: bool)
    requires s.Valid() && a in s.pool.blocks && s.pool.blocks[a].rec.ImageRec? && !InTable(s.table, a)
    requires var img := s.pool.blocks[a].rec.image;
             LookupImageInfo(s.table, s.pool.blocks, hash, img.width, img.height).None?
    modifies s`table, s.pool
    ensures s.Valid() && s.pool.calls == old(s.pool.calls) && linked == nodeAllocated
    ensures var img := old(s.pool.blocks)[a].rec.image;
            && (linked ==> && s.pool.blocks == old(s.pool.blocks)[a := Block(old(s.pool.blocks)[a].size, ImageRec(Cached(img, hash)))]
                           && s.table == Linked(old(s.table), a, hash)
                           && LookupImageInfo(s.table, s.pool.blocks, hash, img.width, img.height) == Some(0))
            && (!linked ==> s.pool.blocks == old(s.pool.blocks) && s.table == old(s.table))
  {
    if !nodeAllocated {
      return false;
    }
    InsertKeepsHeapOk(s.mapping, s.pool.blocks, s.table, s.inFlight, a, hash);
    s.table := Linked(s.table, a, hash);
    s.pool.Store(a, ImageRec(Cached(s.pool.blocks[a].rec.image, hash)));
    s.ValidFromHeap();
    linked := true;
  }

  /** The hit of `compat_qxl_image_create`: the node's count goes up by one and its image, of
      the size looked for, is the answer. */
  method ReuseImage(s: Screen, bk: nat, k: nat, ghost key: Key) returns (r: u64)
    requires s.Valid() && bk < |s.table| && k < |s.table[bk]|
    requires KeyAt(s.pool.blocks, s.table[bk][k].image) == Some(key)
    modifies s`table
    ensures s.Valid()
    ensures s.table == Recounted(old(s.table), bk, k)
    ensures r == old(s.table)[bk][k].image
    ensures r in s.pool.blocks && s.pool.blocks[r].rec.ImageRec?
    ensures s.pool.blocks[r].rec.image.width == key.width && s.pool.blocks[r].rec.image.height == key.height
  {
    r := s.table[bk][k].image;
    assert ChainOk(s.pool.blocks, bk, s.table[bk]);
    ChainOkRecount(s.pool.blocks, bk, s.table[bk], k, s.table[bk][k].refCount + 1);
    s.table := Recounted(s.table, bk, k);
    s.ValidFromHeap();
  }

  /** What a miss of `compat_qxl_image_create` leaves behind when the driver survives it: the
      image `a`, a new descriptor naming a chunk that holds the copied rows, cached under `hash`
      with one reference at the head of its bucket when the node could be allocated (`linked`)
      and uncached otherwise; apart from the two new blocks and the new node, memory is what the
      collections in between made of `h0`. */
  ghost predicate Built(m: RamMapping, h0: Mem, h: Mem, a: u64, bytesPerPixel: nat, width: u32, height: u32,
                        rows: seq<seq<u8>>, hash: u32, linked: bool)
  {
    && a in h.blocks && h.blocks[a].rec.ImageRec? && |h.table| == HASH_SIZE
    && var img := h.blocks[a].rec.image;
       var c := m.Virt(img.bitmap.data);
       var bk := Bucket(hash);
       && h.blocks[a].size == SIZEOF_IMAGE
       && img == (if linked then Cached(NewImage(m, c, bytesPerPixel, width, height), hash)
                  else NewImage(m, c, bytesPerPixel, width, height))
       && c in h.blocks && c != a
       && h.blocks[c] == Block(ChunkSize(height, RowBytes(width, bytesPerPixel)),
                               ChunkRec(NewChunk(height, RowBytes(width, bytesPerPixel), Flatten(rows))))
       && (linked ==> && |h.table[bk]| > 0 && h.table[bk][0] == ImageInfo(a, 1)
                      && LookupImageInfo(h.table, h.blocks, hash, width, height) == Some(0)
                      && Collected(m, h0, h.(blocks := h.blocks - {a, c}, table := h.table[bk := h.table[bk][1..]])))
       && (!linked ==> && !InTable(h.table, a)
                       && Collected(m, h0, h.(blocks := h.blocks - {a, c})))
  }

  /** The image at `a` shows the `width` by `height` rectangle whose rows are `rows` and hash to
      `hash`: either its key is the rows' hash and the size, the key under which
      `compat_qxl_image_create` finds or caches such an image, or its data chunk holds exactly
      those rows. */
  ghost predicate ImageOfRows(m: RamMapping, b: map<u64, Block>, a: u64, bytesPerPixel: nat, width: u32, height: u32,
                              rows: seq<seq<u8>>, hash: u32)
  {
    && a in b && b[a].rec.ImageRec?
    && var img := b[a].rec.image;
       var c := m.Virt(img.bitmap.data);
       && img.width == width && img.height == height
       && (|| KeyOfImage(img) == Key(hash, width, height)
           || (c in b && c != a && b[c] == Block(ChunkSize(height, RowBytes(width, bytesPerPixel)),
                                                 ChunkRec(NewChunk(height, RowBytes(width, bytesPerPixel), Flatten(rows))))))
  }

  /** A built image shows its rows; when it was cached, its key is also the rows' hash. */
  lemma BuiltShowsRows(m: RamMapping, h0: Mem, h: Mem, a: u64, bytesPerPixel: nat, width: u32, height: u32,
                       rows: seq<seq<u8>>, hash: u32, linked: bool)
    requires Built(m, h0, h, a, bytesPerPixel, width, height, rows, hash, linked)
    ensures ImageOfRows(m, h.blocks, a, bytesPerPixel, width, height, rows, hash)
    ensures linked ==> KeyOfImage(h.blocks[a].rec.image) == Key(hash, width, height)
  {
  }

  /** Overwriting a block that is neither the image nor an image's chunk keeps what the image
      shows. */
  lemma ImageOfRowsFrame(m: RamMapping, b: map<u64, Block>, a: u64, v: Block, x: u64, bytesPerPixel: nat,
                         width: u32, height: u32, rows: seq<seq<u8>>, hash: u32)
    requires ImageOfRows(m, b, x, bytesPerPixel, width, height, rows, hash)
    requires a in b && !b[a].rec.ImageRec? && !b[a].rec.ChunkRec?
    ensures ImageOfRows(m, b[a := v], x, bytesPerPixel, width, height, rows, hash)
  {
  }

  /** The chunk of a miss: allocated with `compat_qxl_allocnf` for the chunk header and `height`
      rows of `width * bytes_per_pixel` bytes, its header filled in and the rows copied into it.
      `None` when the driver ended for want of memory. */
  method BuildChunk(s: Screen, src: seq<u8>, offset: nat, stride: nat, width: u32, height: u32)
    returns (c: Option<u64>)
    requires s.Valid() && RowsInBounds(|src|, offset, stride, RowBytes(width, s.bytesPerPixel), height)
    modifies s`table, s`inFlight, s`protocolError, s.pool, s.releaseRing, s`ramHeader, s`events, s`nthOom
    ensures s.Valid() && old(s.events) <= s.events
    ensures c.None? ==> Exited(s.events)
    ensures c.Some? ==>
              && c.value in s.pool.blocks && !Owned(s.pool.blocks, s.mapping, c.value)
              && s.pool.blocks[c.value] ==
                 Block(ChunkSize(height, RowBytes(width, s.bytesPerPixel)),
                       ChunkRec(NewChunk(height, RowBytes(width, s.bytesPerPixel),
                                         Flatten(Rows(src, offset, stride, RowBytes(width, s.bytesPerPixel), height)))))
              && Collected(s.mapping, old(MemOf(s)), MemOf(s).(blocks := s.pool.blocks - {c.value}))
  {
    var n := RowBytes(width, s.bytesPerPixel);
    c := AllocBlock(s, ChunkSize(height, n));
    if c.None? {
      return;
    }
    var _, bytes := HashAndCopy(s.rowHash, src, offset, stride, true, s.bytesPerPixel, width, height);
    ghost var h := MemOf(s);
    StoreChunk(s, c.value, NewChunk(height, n, bytes));
    WriteThenDrop(h.blocks, c.value, s.pool.blocks[c.value]);
  }

  /** The descriptor of a miss: allocated with `compat_qxl_allocnf` and filled in, uncached, for
      the chunk `c`, which the collection in between leaves alone.  `None` when the driver ended
      for want of memory. */
  method BuildDescriptor(s: Screen, c: u64, width: u32, height: u32) returns (a: Option<u64>)
    requires s.Valid() && c in s.pool.blocks && s.pool.blocks[c].rec.ChunkRec?
    requires !Owned(s.pool.blocks, s.mapping, c)
    modifies s`table, s`inFlight, s`protocolError, s.pool, s.releaseRing, s`ramHeader, s`events, s`nthOom
    ensures s.Valid() && old(s.events) <= s.events
    ensures a.None? ==> Exited(s.events)
    ensures a.Some? ==>
              && c in s.pool.blocks && s.pool.blocks[c] == old(s.pool.blocks[c])
              && a.value in s.pool.blocks && a.value != c && !InTable(s.table, a.value)
              && s.pool.blocks[a.value] == Block(SIZEOF_IMAGE, ImageRec(NewImage(s.mapping, c, s.bytesPerPixel, width, height)))
              && Collected(s.mapping, old(MemOf(s)), MemOf(s).(blocks := s.pool.blocks - {a.value}))
  {
    ghost var h0 := MemOf(s);
    assert Kept(h0.blocks, h0.inFlight, s.mapping, c);
    a := AllocBlock(s, SIZEOF_IMAGE);
    if a.None? {
      return;
    }
    ghost var h1 := MemOf(s);
    KeptSurvives(s.mapping, h0.blocks, h0.inFlight, h0.table, h1.blocks - {a.value}, h1.inFlight, h1.table, c);
    var img := NewImage(s.mapping, c, s.bytesPerPixel, width, height);
    NewImageNamesChunk(s.mapping, c, s.bytesPerPixel, width, height);
    StoreImage(s, a.value, img);
    WriteThenDrop(h1.blocks, a.value, s.pool.blocks[a.value]);
  }

  /** A descriptor at `a` naming a chunk at `c` that holds `rows`, both allocated since `h0` and
      not yet cached; everything `h0` held survives, and the key still misses. */
  ghost predicate Staged(m: RamMapping, h0: Mem, h: Mem, a: u64, c: u64, bytesPerPixel: nat,
                         width: u32, height: u32, rows: seq<seq<u8>>, hash: u32)
  {
    && |h.table| == HASH_SIZE && a != c && !InTable(h.table, a)
    && Collected(m, h0, h.(blocks := h.blocks - {a, c}))
    && a in h.blocks && h.blocks[a] == Block(SIZEOF_IMAGE, ImageRec(NewImage(m, c, bytesPerPixel, width, height)))
    && c in h.blocks && h.blocks[c] == Block(ChunkSize(height, RowBytes(width, bytesPerPixel)),
                                             ChunkRec(NewChunk(height, RowBytes(width, bytesPerPixel), Flatten(rows))))
    && LookupImageInfo(h.table, h.blocks, hash, width, height).None?
  }

  /** The two allocations of a miss compose: the chunk allocated between `h0` and `h1`, the
      descriptor between `h1` and `h2`, each collection keeping what the one before held. */
  lemma StagedFrom(m: RamMapping, h0: Mem, h1: Mem, h2: Mem, a: u64, c: u64, bytesPerPixel: nat,
                   width: u32, height: u32, rows: seq<seq<u8>>, hash: u32)
    requires |h0.table| == HASH_SIZE && TableOk(h1.table, h1.blocks) && TableOk(h2.table, h2.blocks)
    requires LookupImageInfo(h0.table, h0.blocks, hash, width, height).None?
    requires c in h1.blocks && h1.blocks[c] == Block(ChunkSize(height, RowBytes(width, bytesPerPixel)),
                                                     ChunkRec(NewChunk(height, RowBytes(width, bytesPerPixel), Flatten(rows))))
    requires Collected(m, h0, h1.(blocks := h1.blocks - {c}))
    requires c in h2.blocks && h2.blocks[c] == h1.blocks[c]
    requires a in h2.blocks && a != c && !InTable(h2.table, a)
    requires h2.blocks[a] == Block(SIZEOF_IMAGE, ImageRec(NewImage(m, c, bytesPerPixel, width, height)))
    requires Collected(m, h1, h2.(blocks := h2.blocks - {a}))
    ensures Staged(m, h0, h2, a, c, bytesPerPixel, width, height, rows, hash)
  {
    MissSurvives(m, h0, h1, {c}, hash, width, height);
    MissSurvives(m, h1, h2, {a}, hash, width, height);
    CollectedWithout(m, h1, h2.(blocks := h2.blocks - {a}), c);
    RemoveTwo(h2.blocks, a, c);
    CollectedTrans(m, h0, h1.(blocks := h1.blocks - {c}), h2.(blocks := h2.blocks - {a, c}));
  }

  /** Caching a staged descriptor, or leaving it uncached, yields a built image. */
  lemma BuiltFrom(m: RamMapping, h0: Mem, h2: Mem, h3: Mem, a: u64, c: u64, bytesPerPixel: nat,
                  width: u32, height: u32, rows: seq<seq<u8>>, hash: u32, linked: bool)
    requires Staged(m, h0, h2, a, c, bytesPerPixel, width, height, rows, hash)
    requires h3.inFlight == h2.inFlight && h3.fault == h2.fault
    requires linked ==> && h3.blocks == h2.blocks[a := Block(SIZEOF_IMAGE, ImageRec(Cached(NewImage(m, c, bytesPerPixel, width, height), hash)))]
                        && h3.table == Linked(h2.table, a, hash)
                        && LookupImageInfo(h3.table, h3.blocks, hash, width, height) == Some(0)
    requires !linked ==> h3.blocks == h2.blocks && h3.table == h2.table
    ensures Built(m, h0, h3, a, bytesPerPixel, width, height, rows, hash, linked)
  {
    NewImageNamesChunk(m, c, bytesPerPixel, width, height);
    if linked {
      var bk := Bucket(hash);
      assert h3.table[bk := h3.table[bk][1..]] == h2.table;
      assert h3.blocks - {a, c} == h2.blocks - {a, c};
    }
  }

  /** The two allocations of a miss: a chunk holding the copied rows, then a descriptor naming it.
      The key missed before the first allocation and still misses after each collection. */
  method Stage(s: Screen, src: seq<u8>, offset: nat, stride: nat, width: u32, height: u32, ghost hash: u32)
    returns (a: u64, c: u64, ok: bool)
    requires s.Valid() && RowsInBounds(|src|, offset, stride, RowBytes(width, s.bytesPerPixel), height)
    requires LookupImageInfo(s.table, s.pool.blocks, hash, width, height).None?
    modifies s`table, s`inFlight, s`protocolError, s.pool, s.releaseRing, s`ramHeader, s`events, s`nthOom
    ensures s.Valid() && old(s.events) <= s.events
    ensures !ok ==> Exited(s.events)
    ensures ok ==> Staged(s.mapping, old(MemOf(s)), MemOf(s), a, c, s.bytesPerPixel, width, height,
                          Rows(src, offset, stride, RowBytes(width, s.bytesPerPixel), height), hash)
  {
    ghost var h0 := MemOf(s);
    var chunk := BuildChunk(s, src, offset, stride, width, height);
    if chunk.None? {
      return 0, 0, false;
    }
    ghost var h1 := MemOf(s);
    var image := BuildDescriptor(s, chunk.value, width, height);
    if image.None? {
      return 0, 0, false;
    }
    a, c, ok := image.value, chunk.value, true;
    StagedFrom(s.mapping, h0, h1, MemOf(s), a, c, s.bytesPerPixel, width, height,
               Rows(src, offset, stride, RowBytes(width, s.bytesPerPixel), height), hash);
  }

  /** The miss of `compat_qxl_image_create`: the staged chunk and descriptor, and the node caching
      the descriptor under `hash` when `insert_image_info` can allocate one. */
  method BuildImage(s: Screen, src: seq<u8>, offset: nat, stride: nat, width: u32, height: u32,
                    hash: u32, nodeAllocated: bool) returns (r: Option<u64>)
    requires s.Valid() && RowsInBounds(|src|, offset, stride, RowBytes(width, s.bytesPerPixel), height)
    requires LookupImageInfo(s.table, s.pool.blocks, hash, width, height).None?
    modifies s`table, s`inFlight, s`protocolError, s.pool, s.releaseRing, s`ramHeader, s`events, s`nthOom
    ensures s.Valid() && old(s.events) <= s.events
    ensures r.None? ==> Exited(s.events)
    ensures r.Some? ==> Built(s.mapping, old(MemOf(s)), MemOf(s), r.value, s.bytesPerPixel, width, height,
                              Rows(src, offset, stride, RowBytes(width, s.bytesPerPixel), height), hash, nodeAllocated)
  {
    ghost var h0 := MemOf(s);
    ghost var rows := Rows(src, offset, stride, RowBytes(width, s.bytesPerPixel), height);
    var a, c, ok := Stage(s, src, offset, stride, width, height, hash);
    if !ok {
      return None;
    }
    Publish(s, a, c, hash, nodeAllocated, h0, width, height, rows);
    r := Some(a);
  }

  /** The staged image `a` goes into the cache when its node could be allocated. */
  method Publish(s: Screen, a: u64, c: u64, hash: u32, nodeAllocated: bool, ghost h0: Mem,
                 ghost width: u32, ghost height: u32, ghost rows: seq<seq<u8>>)
    requires s.Valid() && Staged(s.mapping, h0, MemOf(s), a, c, s.bytesPerPixel, width, height, rows, hash)
    modifies s`table, s.pool
    ensures s.Valid() && s.pool.calls == old(s.pool.calls)
    ensures Built(s.mapping, h0, MemOf(s), a, s.bytesPerPixel, width, height, rows, hash, nodeAllocated)
  {
    ghost var h2 := MemOf(s);
    NewImageNamesChunk(s.mapping, c, s.bytesPerPixel, width, height);
    var linked := InsertImageInfo(s, a, hash, nodeAllocated);
    BuiltFrom(s.mapping, h0, h2, MemOf(s), a, c, s.bytesPerPixel, width, height, rows, hash, nodeAllocated);
  }

  /** Byte offset of pixel (`x`, `y`) in a source of `stride` bytes per row. */
  function PixelOffset(x: nat, y: nat, stride: nat, bytesPerPixel: nat): (o: nat)
    ensures x * bytesPerPixel < stride ==> o / stride == y && o % stride == x * bytesPerPixel
  {
    if x * bytesPerPixel < stride then RowOfOffset(y, stride, x * bytesPerPixel); y * stride + x * bytesPerPixel
    else y * stride + x * bytesPerPixel
  }

  /** Byte `col` of row `row` in lines of `stride` bytes lies on that row at that column. */
  lemma RowOfOffset(row: nat, stride: nat, col: nat)
    requires col < stride
    ensures (row * stride + col) / stride == row && (row * stride + col) % stride == col
  {
    var o := row * stride + col;
    var q := o / stride;
    var r := o % stride;
    assert o == q * stride + r;
    if q > row {
      MulMono(row, q, stride);
    } else if q < row {
      MulMono(q, row, stride);
    }
  }

  /** The reference count of node `k` of bucket `bk`, one higher. */
  function Recounted(t: seq<seq<ImageInfo>>, bk: nat, k: nat): (t': seq<seq<ImageInfo>>)
    requires bk < |t| && k < |t[bk]|
    ensures |t'| == |t| && forall i :: 0 <= i < |t| ==> |t'[i]| == |t[i]|
    ensures t'[bk][k].image == t[bk][k].image && t'[bk][k].refCount == t[bk][k].refCount + 1
    ensures forall i, j :: 0 <= i < |t| && 0 <= j < |t[i]| && (i, j) != (bk, k) ==> t'[i][j] == t[i][j]
  {
    t[bk := t[bk][k := t[bk][k].(refCount := t[bk][k].refCount + 1)]]
  }

  /** The lookup of `compat_qxl_image_create` and what follows it, once the rows at `offset`
      have hashed to `hash`: a hit takes one more reference to the cached descriptor and touches
      nothing else; a miss builds a new chunk and descriptor and caches them when the node can be
      allocated.  `None` when the driver ended for want of memory. */
  method CreateForHash(s: Screen, src: seq<u8>, offset: nat, stride: nat, width: u32, height: u32,
                       hash: u32, nodeAllocated: bool) returns (r: Option<u64>)
    requires s.Valid() && RowsInBounds(|src|, offset, stride, RowBytes(width, s.bytesPerPixel), height)
    modifies s`table, s`inFlight, s`protocolError, s.pool, s.releaseRing, s`ramHeader, s`events, s`nthOom
    ensures s.Valid() && old(s.events) <= s.events
    ensures r.Some? ==> && r.value in s.pool.blocks && s.pool.blocks[r.value].rec.ImageRec?
                        && s.pool.blocks[r.value].rec.image.width == width && s.pool.blocks[r.value].rec.image.height == height
    ensures var hit := LookupImageInfo(old(s.table), old(s.pool.blocks), hash, width, height);
            && (hit.Some? ==> && r == Some(old(s.table)[Bucket(hash)][hit.value].image)
                              && s.table == Recounted(old(s.table), Bucket(hash), hit.value)
                              && s.pool.blocks == old(s.pool.blocks) && s.events == old(s.events)
                              && s.inFlight == old(s.inFlight))
            && (hit.None? && r.None? ==> Exited(s.events))
            && (hit.None? && r.Some? ==> Built(s.mapping, old(MemOf(s)), MemOf(s), r.value, s.bytesPerPixel, width, height,
                                               Rows(src, offset, stride, RowBytes(width, s.bytesPerPixel), height), hash, nodeAllocated))
    ensures r.Some? && Counted(s.mapping, old(MemOf(s))) ==> RefsOk(s.mapping, s.pool.blocks, s.table, s.inFlight, multiset{r.value})
  {
    ghost var h0 := MemOf(s);
    var hit := LookupImageInfo(s.table, s.pool.blocks, hash, width, height);
    if hit.Some? {
      var a := ReuseImage(s, Bucket(hash), hit.value, Key(hash, width, height));
      r := Some(a);
      RefsOkRecount(s.mapping, h0.blocks, h0.table, h0.inFlight, multiset{}, Bucket(hash), hit.value);
    } else {
      r := BuildImage(s, src, offset, stride, width, height, hash, nodeAllocated);
      if r.Some? {
        RefsOkBuilt(s.mapping, h0, MemOf(s), r.value, s.bytesPerPixel, width, height,
                    Rows(src, offset, stride, RowBytes(width, s.bytesPerPixel), height), hash, nodeAllocated);
      }
    }
  }

  /** `compat_qxl_image_create`: the descriptor of the `width` x `height` rectangle at (`x`, `y`)
      of `src`, looked up and, on a miss, built under the hash of its rows. */
  method ImageCreate(s: Screen, src: seq<u8>, x: nat, y: nat, width: u32, height: u32, stride: nat,
                     nodeAllocated: bool) returns (r: Option<u64>)
    requires s.Valid()
    requires RowsInBounds(|src|, PixelOffset(x, y, stride, s.bytesPerPixel), stride, RowBytes(width, s.bytesPerPixel), height)
    modifies s`table, s`inFlight, s`protocolError, s.pool, s.releaseRing, s`ramHeader, s`events, s`nthOom
    ensures s.Valid() && old(s.events) <= s.events
    ensures r.Some? ==> && r.value in s.pool.blocks && s.pool.blocks[r.value].rec.ImageRec?
                        && s.pool.blocks[r.value].rec.image.width == width && s.pool.blocks[r.value].rec.image.height == height
    ensures var rows := Rows(src, PixelOffset(x, y, stride, s.bytesPerPixel), stride, RowBytes(width, s.bytesPerPixel), height);
            var hash := HashOf(s.rowHash, rows);
            var hit := LookupImageInfo(old(s.table), old(s.pool.blocks), hash, width, height);
            && (hit.Some? ==> && r == Some(old(s.table)[Bucket(hash)][hit.value].image)
                              && s.table == Recounted(old(s.table), Bucket(hash), hit.value)
                              && s.pool.blocks == old(s.pool.blocks) && s.events == old(s.events)
                              && s.inFlight == old(s.inFlight))
            && (hit.None? && r.None? ==> Exited(s.events))
            && (hit.None? && r.Some? ==> Built(s.mapping, old(MemOf(s)), MemOf(s), r.value, s.bytesPerPixel,
                                               width, height, rows, hash, nodeAllocated))
    ensures r.Some? && Counted(s.mapping, old(MemOf(s))) ==> RefsOk(s.mapping, s.pool.blocks, s.table, s.inFlight, multiset{r.value})
  {
    var offset := PixelOffset(x, y, stride, s.bytesPerPixel);
    var hash, _ := HashAndCopy(s.rowHash, src, offset, stride, false, s.bytesPerPixel, width as nat, height as nat);
    r := CreateForHash(s, src, offset, stride, width, height, hash, nodeAllocated);
  }

  /** A hit hands out one more reference to the cached image: its node counts one more, and the
      reference is held until a drawable names the image. */
  lemma RefsOkRecount(m: RamMapping, b: map<u64, Block>, t: seq<seq<ImageInfo>>, f: set<u64>, held: multiset<u64>,
                      bk: nat, k: nat)
    requires TableOk(t, b) && bk < |t| && k < |t[bk]|
    ensures RefsOk(m, b, t, f, held) ==> RefsOk(m, b, Recounted(t, bk, k), f, held + multiset{t[bk][k].image})
  {
    if RefsOk(m, b, t, f, held) {
      RecountHandsOut(m, b, t, f, held, bk, k);
    }
  }

  lemma RecountHandsOut(m: RamMapping, b: map<u64, Block>, t: seq<seq<ImageInfo>>, f: set<u64>, held: multiset<u64>,
                        bk: nat, k: nat)
    requires TableOk(t, b) && RefsOk(m, b, t, f, held) && bk < |t| && k < |t[bk]|
    ensures RefsOk(m, b, Recounted(t, bk, k), f, held + multiset{t[bk][k].image})
  {
    var x := t[bk][k].image;
    var t' := Recounted(t, bk, k);
    var held' := held + multiset{x};
    RecountedCounts(m, b, t, held, bk, k);
    RecountedKeeps(t, bk, k);
    assert UncachedSingle(m, b, t', held') by {
      assert UncachedSingle(m, b, t, held);
      assert t'[bk][k].image == x;
    }
  }

  /** One more count on a node and one more held reference to its image keep the counts exact. */
  lemma RecountedCounts(m: RamMapping, b: map<u64, Block>, t: seq<seq<ImageInfo>>, held: multiset<u64>, bk: nat, k: nat)
    requires TableOk(t, b) && CountsExact(m, b, t, held) && bk < |t| && k < |t[bk]|
    ensures CountsExact(m, b, Recounted(t, bk, k), held + multiset{t[bk][k].image})
  {
    var t': seq<seq<ImageInfo>> := Recounted(t, bk, k);
    var held': multiset<u64> := held + multiset{t[bk][k].image};
    forall i: int, j: int | 0 <= i < |t'| && 0 <= j < |t'[i]|
      ensures t'[i][j].refCount == |Referrers(m, b, t'[i][j].image)| + held'[t'[i][j].image]
    {
      if (i, j) != (bk, k) {
        CachedImageUnique(t, b, bk, k, i, j);
      }
    }
  }

  /** Recounting a node keeps every cached image cached. */
  lemma RecountedKeeps(t: seq<seq<ImageInfo>>, bk: nat, k: nat)
    requires bk < |t| && k < |t[bk]|
    ensures forall y :: InTable(t, y) ==> InTable(Recounted(t, bk, k), y)
  {
    var t' := Recounted(t, bk, k);
    forall y | InTable(t, y)
      ensures InTable(t', y)
    {
      var i, j :| 0 <= i < |t| && 0 <= j < |t[i]| && t[i][j].image == y;
      assert t'[i][j].image == y;
    }
  }

  /** A new image `a` with its chunk `c`, added to memory whose counts are exact, is named by no
      drawable, and every other image keeps its referrers. */
  lemma AddedImageUnnamed(m: RamMapping, b: map<u64, Block>, f: set<u64>, a: u64, c: u64)
    requires LiveImage(b, a) && c in b && b[c].rec.ChunkRec?
    requires SourcesLive(m, b - {a, c}) && InFlightReady(b - {a, c}, f)
    ensures forall y :: Referrers(m, b, y) == Referrers(m, b - {a, c}, y)
    ensures Referrers(m, b, a) == {}
    ensures SourcesLive(m, b) && InFlightReady(b, f)
  {
    ReferrersKept(m, b, b - {a, c}, a);
    ReferrersKept(m, b, b - {a, c}, c);
    forall z | z in Referrers(m, b - {a, c}, a)
      ensures false
    {
    }
  }

  /** A miss whose image went into the cache: the new node counts the one reference the caller
      holds. */
  lemma RefsOkLinked(m: RamMapping, b: map<u64, Block>, t: seq<seq<ImageInfo>>, f: set<u64>, a: u64, c: u64, bk: nat)
    requires TableOk(t, b) && bk < |t| && |t[bk]| > 0 && t[bk][0] == ImageInfo(a, 1)
    requires c in b && b[c].rec.ChunkRec?
    requires RefsOk(m, b - {a, c}, t[bk := t[bk][1..]], f, multiset{})
    ensures RefsOk(m, b, t, f, multiset{a})
  {
    var t': seq<seq<ImageInfo>> := t[bk := t[bk][1..]];
    var held := multiset{a};
    assert EntryOk(b, bk, t[bk][0]);
    AddedImageUnnamed(m, b, f, a, c);
    assert CountsExact(m, b, t, held) by {
      assert CountsExact(m, b - {a, c}, t', multiset{});
      forall i, j | 0 <= i < |t| && 0 <= j < |t[i]|
        ensures t[i][j].refCount == |Referrers(m, b, t[i][j].image)| + held[t[i][j].image]
      {
        if (i, j) != (bk, 0) {
          CachedImageUnique(t, b, bk, 0, i, j);
          var j' := if i == bk then j - 1 else j;
          assert t[i][j] == t'[i][j'];
        }
      }
    }
    forall y | InTable(t', y)
      ensures InTable(t, y)
    {
      var i, j :| 0 <= i < |t'| && 0 <= j < |t'[i]| && t'[i][j].image == y;
      var j' := if i == bk then j + 1 else j;
      assert t[i][j'] == t'[i][j];
    }
    assert UncachedSingle(m, b, t, held) by {
      assert UncachedSingle(m, b - {a, c}, t', multiset{});
      assert t[bk][0].image == a;
    }
  }

  /** A miss whose image stayed out of the cache: the caller holds its only reference. */
  lemma RefsOkUncached(m: RamMapping, b: map<u64, Block>, t: seq<seq<ImageInfo>>, f: set<u64>, a: u64, c: u64)
    requires LiveImage(b, a) && !InTable(t, a) && c in b && b[c].rec.ChunkRec?
    requires RefsOk(m, b - {a, c}, t, f, multiset{})
    ensures RefsOk(m, b, t, f, multiset{a})
  {
    var held := multiset{a};
    AddedImageUnnamed(m, b, f, a, c);
    assert CountsExact(m, b, t, held) by {
      assert CountsExact(m, b - {a, c}, t, multiset{});
      forall i, j | 0 <= i < |t| && 0 <= j < |t[i]|
        ensures t[i][j].refCount == |Referrers(m, b, t[i][j].image)| + held[t[i][j].image]
      {
        assert t[i][j].image != a;
      }
    }
    assert UncachedSingle(m, b, t, held) by {
      assert UncachedSingle(m, b - {a, c}, t, multiset{});
    }
  }

  /** A miss hands out the only reference to its new image, cached or not. */
  lemma RefsOkBuilt(m: RamMapping, h0: Mem, h: Mem, a: u64, bytesPerPixel: nat, width: u32, height: u32,
                    rows: seq<seq<u8>>, hash: u32, linked: bool)
    requires Built(m, h0, h, a, bytesPerPixel, width, height, rows, hash, linked) && TableOk(h.table, h.blocks)
    ensures Counted(m, h0) ==> RefsOk(m, h.blocks, h.table, h.inFlight, multiset{a})
  {
    var c := m.Virt(h.blocks[a].rec.image.bitmap.data);
    if !Counted(m, h0) {
    } else if linked {
      RefsOkLinked(m, h.blocks, h.table, h.inFlight, a, c, Bucket(hash));
    } else {
      RefsOkUncached(m, h.blocks, h.table, h.inFlight, a, c);
    }
  }

  /** A block the collector keeps is still there, unchanged and not handed to the device, once a
      miss has built its image. */
  lemma BuiltKeeps(m: RamMapping, h0: Mem, h: Mem, a: u64, bytesPerPixel: nat, width: u32, height: u32,
                   rows: seq<seq<u8>>, hash: u32, linked: bool, x: u64)
    requires Built(m, h0, h, a, bytesPerPixel, width, height, rows, hash, linked)
    requires Kept(h0.blocks, h0.inFlight, m, x)
    ensures x in h.blocks && h.blocks[x] == h0.blocks[x] && x !in h.inFlight
  {
    var img := h.blocks[a].rec.image;
    var c := m.Virt(img.bitmap.data);
    if linked {
      var bk := Bucket(hash);
      var h' := h.(blocks := h.blocks - {a, c}, table := h.table[bk := h.table[bk][1..]]);
      KeptSurvives(m, h0.blocks, h0.inFlight, h0.table, h'.blocks, h'.inFlight, h'.table, x);
    } else {
      var h' := h.(blocks := h.blocks - {a, c});
      KeptSurvives(m, h0.blocks, h0.inFlight, h0.table, h'.blocks, h'.inFlight, h'.table, x);
    }
  }
}
