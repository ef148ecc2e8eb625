/** The reference-counted image cache of src/compat/compat-qxl_image.c: lookup, insertion and
    removal of `image_info_t` nodes, `compat_qxl_image_destroy` and
    `compat_qxl_drop_image_cache`.  Building a new image (`compat_qxl_image_create`) allocates
    through the collector and lives in `ImageUpload`. */
module ImageCache {
  import opened Protocol
  import opened Memory
  import opened ImageTable
  import opened QxlScreen

  /** `lookup_image_info`: searches bucket `hash % HASH_SIZE` only, and finds the first node whose
      image has this id, width and height, or nothing. */
  function LookupImageInfo(table: seq<seq<ImageInfo>>, blocks: map<u64, Block>,
                           hash: u32, width: u32, height: u32): (r: Option<nat>)
    requires |table| == HASH_SIZE
    ensures r.Some? ==> r.value < |table[Bucket(hash)]|
    ensures r.Some? ==> KeyAt(blocks, table[Bucket(hash)][r.value].image) == Some(Key(hash, width, height))
    ensures r.Some? ==> forall j :: 0 <= j < r.value ==>
              KeyAt(blocks, table[Bucket(hash)][j].image) != Some(Key(hash, width, height))
    ensures r.None? <==> forall j :: 0 <= j < |table[Bucket(hash)]| ==>
              KeyAt(blocks, table[Bucket(hash)][j].image) != Some(Key(hash, width, height))
  {
    LookupChain(table[Bucket(hash)], blocks, Key(hash, width, height))
  }

  /** Every cached image is found again by a lookup of its own id, width and height, in the
      bucket it sits in and at the node that holds it. */
  lemma LookupFindsCachedImage(t: seq<seq<ImageInfo>>, blocks: map<u64, Block>, b: nat, k: nat)
    requires TableOk(t, blocks) && b < |t| && k < |t[b]|
    ensures t[b][k].image in blocks && blocks[t[b][k].image].rec.ImageRec?
    ensures var img := blocks[t[b][k].image].rec.image;
            && img.id < 0x1_0000_0000 && Bucket(img.id) == b
            && LookupImageInfo(t, blocks, img.id, img.width, img.height) == Some(k)
  {
    assert ChainOk(blocks, b, t[b]);
    LookupFindsOwnNode(blocks, b, t[b], k);
  }

  /** A cached image sits in exactly one node of the table. */
  lemma CachedImageUnique(t: seq<seq<ImageInfo>>, blocks: map<u64, Block>, b: nat, k: nat, b': nat, k': nat)
    requires TableOk(t, blocks)
    requires b < |t| && k < |t[b]| && b' < |t| && k' < |t[b']|
    requires b != b' || k != k'
    ensures t[b][k].image != t[b'][k'].image
  {
    assert EntryOk(blocks, b, t[b][k]) && EntryOk(blocks, b', t[b'][k']);
    assert ChainOk(blocks, b, t[b]);
  }

  /** An image the lookup of its own key does not lead to is not in the table. */
  lemma MissedImageNotCached(t: seq<seq<ImageInfo>>, blocks: map<u64, Block>, image: u64)
    requires TableOk(t, blocks) && image in blocks && blocks[image].rec.ImageRec?
    requires var img := blocks[image].rec.image;
             var found := LookupImageInfo(t, blocks, ToU32(img.id), img.width, img.height);
             !(found.Some? && t[Bucket(ToU32(img.id))][found.value].image == image)
    ensures !InTable(t, image)
  {
    if InTable(t, image) {
      var b, k :| 0 <= b < |t| && 0 <= k < |t[b]| && t[b][k].image == image;
      LookupFindsCachedImage(t, blocks, b, k);
      assert false;
    }
  }

  /** Removing a node and freeing its image and the image's chunk keeps the table well-formed. */
  lemma RemoveKeepsTableOk(t: seq<seq<ImageInfo>>, blocks: map<u64, Block>, b: nat, k: nat, chunk: u64)
    requires TableOk(t, blocks) && b < |t| && k < |t[b]|
    requires chunk in blocks ==> !blocks[chunk].rec.ImageRec?
    ensures TableOk(t[b := t[b][..k] + t[b][k + 1..]], blocks - {chunk, t[b][k].image})
  {
    var image := t[b][k].image;
    var t': seq<seq<ImageInfo>> := t[b := t[b][..k] + t[b][k + 1..]];
    ChainOkRemove(blocks, b, t[b], k);
    assert TableOk(t', blocks);
    forall a | InTable(t', a)
      ensures a in blocks - {chunk, image} && (blocks - {chunk, image})[a] == blocks[a]
    {
      var b1, k1 :| 0 <= b1 < |t'| && 0 <= k1 < |t'[b1]| && t'[b1][k1].image == a;
      assert EntryOk(blocks, b1, t'[b1][k1]);
      var k2 := if b1 == b && k1 >= k then k1 + 1 else k1;
      assert t'[b1][k1] == t[b1][k2];
      CachedImageUnique(t, blocks, b, k, b1, k2);
    }
    TableOkFrame(t', blocks, blocks - {chunk, image});
  }

  /** Freeing an image together with its own chunk leaves every other image with its chunk,
      keeps the records in flight, and frees nothing the collector must keep. */
  lemma FreeImageKeepsChunks(m: RamMapping, blocks: map<u64, Block>, f: set<u64>, image: u64,
                             t: seq<seq<ImageInfo>>, t': seq<seq<ImageInfo>>)
    requires ImagesOwnChunks(blocks, m) && image in blocks && blocks[image].rec.ImageRec?
    requires f <= blocks.Keys && (forall a :: a in f ==> blocks[a].rec.DrawableRec? || blocks[a].rec.CursorCmdRec?)
    requires Shrinks(t, t')
    ensures var chunk := m.Virt(blocks[image].rec.image.bitmap.data);
            var b1 := blocks - {chunk, image};
            && chunk != image && chunk in blocks && blocks[chunk].rec.ChunkRec?
            && ImagesOwnChunks(b1, m)
            && f <= b1.Keys && (forall a :: a in f ==> b1[a].rec.DrawableRec? || b1[a].rec.CursorCmdRec?)
            && Survives(m, blocks, f, t, b1, f, t')
  {
    var chunk := m.Virt(blocks[image].rec.image.bitmap.data);
    var b1 := blocks - {chunk, image};
    assert Owned(blocks, m, chunk);
    forall a | Kept(blocks, f, m, a)
      ensures a in b1
    {
    }
  }

  /** `remove_image_info`: walks bucket `id % HASH_SIZE` of the image's descriptor to the node
      holding `image` and unlinks it; the rest of the chain keeps its order. */
  method RemoveImageInfo(s: Screen, image: u64)
    requires |s.table| == HASH_SIZE && image in s.pool.blocks && s.pool.blocks[image].rec.ImageRec?
    modifies s`table
    ensures var b := Bucket(s.pool.blocks[image].rec.image.id);
            s.table == old(s.table)[b := Unlink(old(s.table[b]), image)]
  {
    var b := Bucket(s.pool.blocks[image].rec.image.id);
    var chain := s.table[b];
    var i := 0;
    while i < |chain| && chain[i].image != image
      invariant 0 <= i <= |chain|
      invariant forall j :: 0 <= j < i ==> chain[j].image != image
    {
      i := i + 1;
    }
    UnlinkAt(chain, image);
    if i < |chain| {
      assert FirstIndex(chain, image) == Some(i);
      s.table := s.table[b := chain[..i] + chain[i + 1..]];
    }
  }

  /** What `compat_qxl_image_destroy` leaves of the blocks and the table.  When the lookup of the
      image's own key leads to the node holding this very image, the count drops by one and, only
      when it reaches zero, the node is unlinked; in that case, and whenever the image is not
      cached, its chunk and the image are freed. */
  function Destroyed(m: RamMapping, b0: map<u64, Block>, t0: seq<seq<ImageInfo>>, image: u64)
    : (r: (map<u64, Block>, seq<seq<ImageInfo>>))
    requires |t0| == HASH_SIZE && image in b0 && b0[image].rec.ImageRec?
    ensures |r.1| == HASH_SIZE
  {
    var img := b0[image].rec.image;
    var hash := ToU32(img.id);
    var b := Bucket(hash);
    var found := LookupImageInfo(t0, b0, hash, img.width, img.height);
    var chunk := m.Virt(U64ToPointer(img.bitmap.data));
    if found.Some? && t0[b][found.value].image == image then
      var rc := t0[b][found.value].refCount - 1;
      if rc != 0 then
        (b0, t0[b := t0[b][found.value := ImageInfo(image, rc)]])
      else
        (b0 - {chunk, image}, t0[b := Unlink(t0[b], image)])
    else
      (b0 - {chunk, image}, t0)
  }

  /** Destroying an image keeps the memory invariant, frees nothing but the image and its chunk,
      and frees nothing the collector keeps. */
  lemma DestroyKeepsHeapOk(m: RamMapping, b0: map<u64, Block>, t0: seq<seq<ImageInfo>>, f: set<u64>, image: u64)
    requires HeapOk(m, b0, t0, f) && image in b0 && b0[image].rec.ImageRec?
    ensures var r := Destroyed(m, b0, t0, image);
            && HeapOk(m, r.0, r.1, f)
            && Survives(m, b0, f, t0, r.0, f, r.1)
            && forall a :: a in b0 && !b0[a].rec.ImageRec? && !b0[a].rec.ChunkRec? ==> a in r.0
  {
    var img := b0[image].rec.image;
    var hash := ToU32(img.id);
    var b := Bucket(hash);
    var found := LookupImageInfo(t0, b0, hash, img.width, img.height);
    var chunk := m.Virt(img.bitmap.data);
    if found.Some? && t0[b][found.value].image == image {
      var k := found.value;
      var rc := t0[b][k].refCount;
      if rc != 1 {
        DestroyRecount(m, b0, t0, f, b, k);
      } else {
        DestroyRemove(m, b0, t0, f, b, k);
      }
    } else {
      DestroyMissed(m, b0, t0, f, image);
    }
  }

  lemma DestroyMissed(m: RamMapping, b0: map<u64, Block>, t0: seq<seq<ImageInfo>>, f: set<u64>, image: u64)
    requires HeapOk(m, b0, t0, f) && image in b0 && b0[image].rec.ImageRec?
    requires var img := b0[image].rec.image;
             var found := LookupImageInfo(t0, b0, ToU32(img.id), img.width, img.height);
             !(found.Some? && t0[Bucket(ToU32(img.id))][found.value].image == image)
    ensures var b1 := b0 - {m.Virt(b0[image].rec.image.bitmap.data), image};
            && HeapOk(m, b1, t0, f)
            && Survives(m, b0, f, t0, b1, f, t0)
            && forall a :: a in b0 && !b0[a].rec.ImageRec? && !b0[a].rec.ChunkRec? ==> a in b1
  {
    MissedImageNotCached(t0, b0, image);
    FreeImageKeepsChunks(m, b0, f, image, t0, t0);
    NotCachedFrame(t0, b0, image, m.Virt(b0[image].rec.image.bitmap.data));
  }

  lemma DestroyRecount(m: RamMapping, b0: map<u64, Block>, t0: seq<seq<ImageInfo>>, f: set<u64>, b: nat, k: nat)
    requires HeapOk(m, b0, t0, f) && b < |t0| && k < |t0[b]| && t0[b][k].refCount != 1
    ensures var t1 := t0[b := t0[b][k := ImageInfo(t0[b][k].image, t0[b][k].refCount - 1)]];
            HeapOk(m, b0, t1, f) && Survives(m, b0, f, t0, b0, f, t1)
  {
    assert EntryOk(b0, b, t0[b][k]);
    ChainOkRecount(b0, b, t0[b], k, t0[b][k].refCount - 1);
    RecountShrinks(t0, b, k, t0[b][k].refCount - 1);
    SurvivesRefl(m, b0, f, t0);
  }

  lemma DestroyRemove(m: RamMapping, b0: map<u64, Block>, t0: seq<seq<ImageInfo>>, f: set<u64>, b: nat, k: nat)
    requires HeapOk(m, b0, t0, f) && b < |t0| && k < |t0[b]|
    ensures var image := t0[b][k].image;
            && image in b0 && b0[image].rec.ImageRec?
            && var chunk := m.Virt(b0[image].rec.image.bitmap.data);
               var t1 := t0[b := Unlink(t0[b], image)];
               var b1 := b0 - {chunk, image};
               && HeapOk(m, b1, t1, f) && Survives(m, b0, f, t0, b1, f, t1)
               && forall a :: a in b0 && !b0[a].rec.ImageRec? && !b0[a].rec.ChunkRec? ==> a in b1
  {
    var image := t0[b][k].image;
    assert EntryOk(b0, b, t0[b][k]);
    var chunk := m.Virt(b0[image].rec.image.bitmap.data);
    UnlinkAt(t0[b], image);
    FirstIndexIsNode(t0, b0, b, k);
    RemoveKeepsTableOk(t0, b0, b, k, chunk);
    RemoveShrinks(t0, b, k);
    FreeImageKeepsChunks(m, b0, f, image, t0, t0[b := t0[b][..k] + t0[b][k + 1..]]);
  }

  /** In a well-formed table the first node of a chain holding a cached image is its only one. */
  lemma FirstIndexIsNode(t: seq<seq<ImageInfo>>, blocks: map<u64, Block>, b: nat, k: nat)
    requires TableOk(t, blocks) && b < |t| && k < |t[b]|
    ensures FirstIndex(t[b], t[b][k].image) == Some(k)
  {
    var r := FirstIndex(t[b], t[b][k].image);
    if r.value != k {
      CachedImageUnique(t, blocks, b, k, b, r.value);
    }
  }

  /** The last step of `compat_qxl_image_destroy` for an image no node holds: its chunk, then
      the image itself, go back to the pool. */
  method FreeUncached(s: Screen, image: u64)
    requires s.Valid() && image in s.pool.blocks && s.pool.blocks[image].rec.ImageRec?
    requires !InTable(s.table, image)
    modifies s.pool
    ensures s.Valid() && s.pool.calls == old(s.pool.calls)
    ensures s.pool.blocks == old(s.pool.blocks) - {s.mapping.Virt(old(s.pool.blocks)[image].rec.image.bitmap.data), image}
    ensures Survives(s.mapping, old(s.pool.blocks), s.inFlight, s.table, s.pool.blocks, s.inFlight, s.table)
  {
    ghost var b0 := s.pool.blocks;
    var chunk := s.mapping.Virt(U64ToPointer(s.pool.blocks[image].rec.image.bitmap.data));
    FreeUncachedKeepsHeapOk(s.mapping, b0, s.table, s.inFlight, image);
    s.pool.Free(chunk);
    s.pool.Free(image);
    RemoveTwo(b0, chunk, image);
    s.ValidFromHeap();
  }

  lemma FreeUncachedKeepsHeapOk(m: RamMapping, b0: map<u64, Block>, t: seq<seq<ImageInfo>>, f: set<u64>, image: u64)
    requires HeapOk(m, b0, t, f) && image in b0 && b0[image].rec.ImageRec? && !InTable(t, image)
    ensures var chunk := m.Virt(b0[image].rec.image.bitmap.data);
            && chunk != image && chunk in b0
            && HeapOk(m, b0 - {chunk, image}, t, f) && Survives(m, b0, f, t, b0 - {chunk, image}, f, t)
  {
    var chunk := m.Virt(b0[image].rec.image.bitmap.data);
    FreeImageKeepsChunks(m, b0, f, image, t, t);
    SurvivesRefl(m, b0, f, t);
    NotCachedFrame(t, b0, image, chunk);
  }

  /** Freeing two blocks one after the other removes both. */
  lemma RemoveTwo(b0: map<u64, Block>, x: u64, y: u64)
    ensures (b0 - {x}) - {y} == b0 - {x, y}
  {
  }

  /** `image_info_t` counting: one reference less on a node that keeps others. */
  method ReleaseReference(s: Screen, b: nat, k: nat)
    requires s.Valid() && b < |s.table| && k < |s.table[b]| && s.table[b][k].refCount != 1
    modifies s`table
    ensures s.Valid()
    ensures s.table == old(s.table)[b := old(s.table)[b][k := ImageInfo(old(s.table)[b][k].image, old(s.table)[b][k].refCount - 1)]]
    ensures Survives(s.mapping, s.pool.blocks, s.inFlight, old(s.table), s.pool.blocks, s.inFlight, s.table)
  {
    DestroyRecount(s.mapping, s.pool.blocks, s.table, s.inFlight, b, k);
    s.table := s.table[b := s.table[b][k := ImageInfo(s.table[b][k].image, s.table[b][k].refCount - 1)]];
    s.ValidFromHeap();
  }

  /** The node at `k` of bucket `b` is unlinked; afterwards no node holds its image. */
  method RemoveNode(s: Screen, b: nat, k: nat)
    requires s.Valid() && b < |s.table| && k < |s.table[b]|
    modifies s`table
    ensures s.Valid() && !InTable(s.table, old(s.table)[b][k].image)
    ensures s.table == old(s.table)[b := Unlink(old(s.table)[b], old(s.table)[b][k].image)]
    ensures Survives(s.mapping, s.pool.blocks, s.inFlight, old(s.table), s.pool.blocks, s.inFlight, s.table)
  {
    var image := s.table[b][k].image;
    RemoveKeepsHeapOk(s.mapping, s.pool.blocks, s.table, s.inFlight, b, k);
    RemoveImageInfo(s, image);
    s.ValidFromHeap();
  }

  lemma RemoveKeepsHeapOk(m: RamMapping, b0: map<u64, Block>, t0: seq<seq<ImageInfo>>, f: set<u64>, b: nat, k: nat)
    requires HeapOk(m, b0, t0, f) && b < |t0| && k < |t0[b]|
    ensures var image := t0[b][k].image;
            && image in b0 && b0[image].rec.ImageRec? && Bucket(b0[image].rec.image.id) == b
            && var t1 := t0[b := Unlink(t0[b], image)];
               HeapOk(m, b0, t1, f) && !InTable(t1, image) && Survives(m, b0, f, t0, b0, f, t1)
  {
    var image := t0[b][k].image;
    assert EntryOk(b0, b, t0[b][k]);
    UnlinkAt(t0[b], image);
    FirstIndexIsNode(t0, b0, b, k);
    ChainOkRemove(b0, b, t0[b], k);
    RemoveShrinks(t0, b, k);
    SurvivesRefl(m, b0, f, t0);
    RemovedNodeGone(t0, b0, b, k);
  }

  /** Once its node is unlinked, no node of a well-formed table holds the image any more. */
  lemma RemovedNodeGone(t0: seq<seq<ImageInfo>>, b0: map<u64, Block>, b: nat, k: nat)
    requires TableOk(t0, b0) && b < |t0| && k < |t0[b]|
    ensures !InTable(t0[b := t0[b][..k] + t0[b][k + 1..]], t0[b][k].image)
  {
    var t1: seq<seq<ImageInfo>> := t0[b := t0[b][..k] + t0[b][k + 1..]];
    forall b1, k1 | 0 <= b1 < |t1| && 0 <= k1 < |t1[b1]|
      ensures t1[b1][k1].image != t0[b][k].image
    {
      var k2 := if b1 == b && k1 >= k then k1 + 1 else k1;
      assert t1[b1][k1] == t0[b1][k2];
      CachedImageUnique(t0, b0, b, k, b1, k2);
    }
  }

  /** `compat_qxl_image_destroy`: the chunk is found through the image's bitmap data, the node
      through a lookup of the image's id, width and height. */
  method ImageDestroy(s: Screen, image: u64)
    requires s.Valid() && image in s.pool.blocks && s.pool.blocks[image].rec.ImageRec?
    modifies s`table, s.pool
    ensures s.Valid() && s.pool.calls == old(s.pool.calls)
    ensures (s.pool.blocks, s.table) == Destroyed(s.mapping, old(s.pool.blocks), old(s.table), image)
    ensures Survives(s.mapping, old(s.pool.blocks), s.inFlight, old(s.table), s.pool.blocks, s.inFlight, s.table)
  {
    ghost var b0, t0, f := s.pool.blocks, s.table, s.inFlight;
    var img := s.pool.blocks[image].rec.image;
    var hash := ToU32(img.id);
    var b := Bucket(hash);
    var found := LookupImageInfo(s.table, s.pool.blocks, hash, img.width, img.height);
    if found.Some? && s.table[b][found.value].image == image {
      var k := found.value;
      if s.table[b][k].refCount - 1 != 0 {
        ReleaseReference(s, b, k);
        return;
      }
      RemoveNode(s, b, k);
    } else {
      MissedImageNotCached(s.table, s.pool.blocks, image);
      SurvivesRefl(s.mapping, b0, f, t0);
    }
    ghost var t1 := s.table;
    FreeUncached(s, image);
    SurvivesTrans(s.mapping, b0, f, t0, b0, f, t1, s.pool.blocks, f, t1);
  }

  lemma RecountShrinks(t: seq<seq<ImageInfo>>, b: nat, k: nat, rc: int)
    requires b < |t| && k < |t[b]|
    ensures Shrinks(t, t[b := t[b][k := ImageInfo(t[b][k].image, rc)]])
  {
    var t': seq<seq<ImageInfo>> := t[b := t[b][k := ImageInfo(t[b][k].image, rc)]];
    forall b1, k1 | 0 <= b1 < |t'| && 0 <= k1 < |t'[b1]|
      ensures Holds(t[b1], t'[b1][k1].image)
    {
      assert t[b1][k1].image == t'[b1][k1].image;
    }
  }

  lemma RemoveShrinks(t: seq<seq<ImageInfo>>, b: nat, k: nat)
    requires b < |t| && k < |t[b]|
    ensures Shrinks(t, t[b := t[b][..k] + t[b][k + 1..]])
  {
    var t': seq<seq<ImageInfo>> := t[b := t[b][..k] + t[b][k + 1..]];
    forall b1, k1 | 0 <= b1 < |t'| && 0 <= k1 < |t'[b1]|
      ensures Holds(t[b1], t'[b1][k1].image)
    {
      var k2 := if b1 == b && k1 >= k then k1 + 1 else k1;
      assert t[b1][k2].image == t'[b1][k1].image;
    }
  }

  /** Freeing an uncached image and its chunk keeps the table well-formed. */
  lemma NotCachedFrame(t: seq<seq<ImageInfo>>, blocks: map<u64, Block>, image: u64, chunk: u64)
    requires TableOk(t, blocks) && !InTable(t, image)
    requires chunk in blocks ==> !blocks[chunk].rec.ImageRec?
    ensures TableOk(t, blocks - {chunk, image})
  {
    forall a | InTable(t, a)
      ensures a in blocks - {chunk, image} && (blocks - {chunk, image})[a] == blocks[a]
    {
      var b1, k1 :| 0 <= b1 < |t| && 0 <= k1 < |t[b1]| && t[b1][k1].image == a;
      assert EntryOk(blocks, b1, t[b1][k1]);
    }
    TableOkFrame(t, blocks, blocks - {chunk, image});
  }

  /** `compat_qxl_drop_image_cache`: every bucket becomes empty; no node, chunk or image is
      freed. */
  method DropImageCache(s: Screen)
    modifies s`table
    ensures |s.table| == HASH_SIZE && forall b :: 0 <= b < HASH_SIZE ==> s.table[b] == []
    ensures TableOk(s.table, s.pool.blocks)
  {
    s.table := seq(HASH_SIZE, _ => []);
  }
}
