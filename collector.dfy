/** The release collector and allocation with recovery of src/compat/compat-qxl_driver.c:
    `garbage_collect`, the `timespec` split of `compat_qxl_usleep`, and `compat_qxl_allocnf`. */
module Collector {
  import opened Protocol
  import opened Memory
  import opened ImageTable
  import opened QxlScreen
  import opened ImageCache

  /** The part of the screen the collector changes: the live blocks, the image table, the records
      in flight, and whether the device has broken the release protocol. */
  datatype Mem = Mem(blocks: map<u64, Block>, table: seq<seq<ImageInfo>>, inFlight: set<u64>, fault: bool)

  function MemOf(s: Screen): Mem
    reads s, s.pool
  {
    Mem(s.pool.blocks, s.table, s.inFlight, s.protocolError)
  }

  ghost predicate MemOk(m: RamMapping, h: Mem)
  {
    HeapOk(m, h.blocks, h.table, h.inFlight)
  }

  /** The reference counts of the cache are exact, with no reference held outside a drawable. */
  ghost predicate Counted(m: RamMapping, h: Mem)
  {
    RefsOk(m, h.blocks, h.table, h.inFlight, multiset{})
  }

  /** `h1` arises from `h0` by collecting released records, a fault once raised stays, and exact
      reference counts stay exact. */
  ghost predicate Collected(m: RamMapping, h0: Mem, h1: Mem)
  {
    && Survives(m, h0.blocks, h0.inFlight, h0.table, h1.blocks, h1.inFlight, h1.table) && (h0.fault ==> h1.fault)
    && (Counted(m, h0) ==> Counted(m, h1))
  }

  /** The `next` id the release cell of a drawable or a cursor command holds. */
  function NextOf(r: Record): u64
  {
    match r
    case DrawableRec(d) => d.releaseInfo.Next()
    case CursorCmdRec(c) => c.releaseInfo.Next()
    case _ => 0
  }

  /** One node of a released batch, as `garbage_collect` handles it: the id with its two tag bits
      cleared names the record, and tag 1 marks a cursor command.  A SET command's cursor shape
      is freed; a COPY drawable's source image is destroyed; then the `next` the record's release
      cell holds is read and the record is freed.  `None` when the id does not name a record in
      flight of the kind its tag says, or the shape or image it refers to is not a live record of
      that kind: the driver would then read or free memory that is not what it takes it for. */
  function Release(m: RamMapping, h: Mem, id: u64): (r: Option<(Mem, u64)>)
    requires |h.table| == HASH_SIZE
    ensures r.Some? ==> var node := ReleaseRecord(id);
                        && node in h.inFlight && node in h.blocks
                        && r.value.0.inFlight == h.inFlight - {node}
                        && node !in r.value.0.blocks
                        && (h.blocks[node].rec.DrawableRec? || h.blocks[node].rec.CursorCmdRec?)
                        && r.value.1 == NextOf(h.blocks[node].rec)
                        && |r.value.0.table| == HASH_SIZE && r.value.0.fault == h.fault
  {
    var node := ReleaseRecord(id);
    var isCursor := ReleaseTag(id) == 1;
    if node !in h.inFlight || node !in h.blocks then None
    else match h.blocks[node].rec
      case CursorCmdRec(cmd) =>
        if !isCursor then None
        else if cmd.cmdType == QXL_CURSOR_SET then
          var cursor := m.Virt(U64ToPointer(cmd.shape));
          if cursor in h.blocks && h.blocks[cursor].rec.CursorRec? then
            Some((h.(blocks := h.blocks - {cursor} - {node}, inFlight := h.inFlight - {node}),
                  cmd.releaseInfo.Next()))
          else None
        else
          Some((h.(blocks := h.blocks - {node}, inFlight := h.inFlight - {node}), cmd.releaseInfo.Next()))
      case DrawableRec(d) =>
        if isCursor then None
        else if d.drawType == QXL_DRAW_COPY then
          if d.body.Copy? then
            var image := m.Virt(U64ToPointer(d.body.srcBitmap));
            if image in h.blocks && h.blocks[image].rec.ImageRec? then
              var (b1, t1) := Destroyed(m, h.blocks, h.table, image);
              Some((h.(blocks := b1 - {node}, table := t1, inFlight := h.inFlight - {node}),
                    d.releaseInfo.Next()))
            else None
          else None
        else
          Some((h.(blocks := h.blocks - {node}, inFlight := h.inFlight - {node}), d.releaseInfo.Next()))
      case _ => None
  }

  /** The inner loop of `garbage_collect`: follows a batch from its first id until an id of 0;
      a node that cannot be released raises the fault and abandons the rest of the batch. */
  function Walk(m: RamMapping, h: Mem, id: u64): (r: Mem)
    requires |h.table| == HASH_SIZE
    ensures |r.table| == HASH_SIZE
    decreases |h.inFlight|
  {
    if id == 0 then h
    else match Release(m, h, id)
      case None => h.(fault := true)
      case Some((h1, next)) => Walk(m, h1, next)
  }

  /** A release cell the device rewrote to the record's own id does not make the collector free
      the record twice: the second visit finds it no longer in flight, raises the fault and ends
      the batch. */
  lemma SelfReferenceFaults(m: RamMapping, h: Mem, id: u64)
    requires |h.table| == HASH_SIZE && id != 0 && Release(m, h, id).Some? && Release(m, h, id).value.1 == id
    ensures Walk(m, h, id) == Release(m, h, id).value.0.(fault := true)
  {
    var h1 := Release(m, h, id).value.0;
    assert Release(m, h1, id).None?;
  }

  /** The outer loop of `garbage_collect`: every batch the release ring holds, oldest first. */
  function Collect(m: RamMapping, h: Mem, ids: seq<u64>): (r: Mem)
    requires |h.table| == HASH_SIZE
    ensures |r.table| == HASH_SIZE
    decreases |ids|
  {
    if ids == [] then h else Collect(m, Walk(m, h, ids[0]), ids[1..])
  }

  /** Releasing one node keeps the memory invariant and frees only what the collector may. */
  lemma ReleaseKeepsMemOk(m: RamMapping, h: Mem, id: u64)
    requires MemOk(m, h) && |h.table| == HASH_SIZE && Release(m, h, id).Some?
    ensures MemOk(m, Release(m, h, id).value.0) && Collected(m, h, Release(m, h, id).value.0)
  {
    ReleaseSurvives(m, h, id);
    if Counted(m, h) {
      ReleaseKeepsCounted(m, h, id);
    }
  }

  /** A drawable the driver pushed is released whenever the device hands back its id, as long as
      the counts are exact: a COPY drawable in flight carries the copy arm and names a live
      image.  The collector never takes the fault branch on the driver's own drawables. */
  lemma ReleaseSucceeds(m: RamMapping, h: Mem, id: u64)
    requires MemOk(m, h) && Counted(m, h) && |h.table| == HASH_SIZE
    requires ReleaseRecord(id) in h.inFlight && ReleaseTag(id) != 1
    requires h.blocks[ReleaseRecord(id)].rec.DrawableRec?
    ensures Release(m, h, id).Some?
  {
    var node := ReleaseRecord(id);
    var d := h.blocks[node].rec.drawable;
    if d.drawType == QXL_DRAW_COPY {
      assert CopyReady(h.blocks[node].rec);
      assert CopySourceOf(m, h.blocks[node].rec).Some?;
    }
  }

  /** A released COPY drawable's image is freed exactly when the drawable was its last
      reference; otherwise the image stays, one reference fewer. */
  lemma ReleaseFreesAtLastReference(m: RamMapping, h: Mem, id: u64)
    requires MemOk(m, h) && Counted(m, h) && |h.table| == HASH_SIZE && Release(m, h, id).Some?
    requires CopySourceOf(m, h.blocks[ReleaseRecord(id)].rec).Some?
    ensures var x := CopySourceOf(m, h.blocks[ReleaseRecord(id)].rec).value;
            x !in Release(m, h, id).value.0.blocks <==> Referrers(m, h.blocks, x) == {ReleaseRecord(id)}
  {
    var node := ReleaseRecord(id);
    var x := CopySourceOf(m, h.blocks[node].rec).value;
    assert SourcesLive(m, h.blocks) && ImagesOwnChunks(h.blocks, m);
    ReleaseCopyKeepsCounted(m, h.blocks, h.table, h.inFlight, node, x);
  }

  /** Releasing one node keeps the reference counts exact. */
  lemma ReleaseKeepsCounted(m: RamMapping, h: Mem, id: u64)
    requires MemOk(m, h) && Counted(m, h) && |h.table| == HASH_SIZE && Release(m, h, id).Some?
    ensures Counted(m, Release(m, h, id).value.0)
  {
    var node := ReleaseRecord(id);
    var b, t, f := h.blocks, h.table, h.inFlight;
    match b[node].rec {
      case CursorCmdRec(cmd) =>
        if cmd.cmdType == QXL_CURSOR_SET {
          var cursor := m.Virt(U64ToPointer(cmd.shape));
          RefsOkUpdate(m, b, t, f, multiset{}, b - {cursor}, f, cursor);
          RefsOkUpdate(m, b - {cursor}, t, f, multiset{}, b - {cursor} - {node}, f - {node}, node);
        } else {
          RefsOkUpdate(m, b, t, f, multiset{}, b - {node}, f - {node}, node);
        }
      case DrawableRec(d) =>
        if d.drawType == QXL_DRAW_COPY {
          var x := m.Virt(U64ToPointer(d.body.srcBitmap));
          assert ImagesOwnChunks(b, m);
          ReleaseCopyKeepsCounted(m, b, t, f, node, x);
        } else {
          RefsOkUpdate(m, b, t, f, multiset{}, b - {node}, f - {node}, node);
        }
    }
  }

  /** A set that holds `a` and at most one element is `{a}`. */
  lemma OnlyElement(r: set<u64>, a: u64)
    requires a in r && |r| <= 1
    ensures r == {a}
  {
    var rest := r - {a};
    assert r == rest + {a};
    assert |rest| == 0;
  }

  /** Leaving out blocks that name no image other than `x` leaves the referrers of every other
      image as they were. */
  lemma ReferrersKept(m: RamMapping, b: map<u64, Block>, b': map<u64, Block>, x: u64)
    requires Submap(b', b)
    requires forall a :: a in b && a !in b' ==> CopySourceOf(m, b[a].rec).None? || CopySourceOf(m, b[a].rec) == Some(x)
    ensures forall y :: y != x ==> Referrers(m, b', y) == Referrers(m, b, y)
  {
    forall y | y != x
      ensures Referrers(m, b', y) == Referrers(m, b, y)
    {
      forall a | a in Referrers(m, b, y)
        ensures a in Referrers(m, b', y)
      {
      }
    }
  }

  /** The destroy a released COPY drawable `node` triggers on its image `x`, followed by the free
      of the drawable, keeps the counts exact; the image goes exactly when `node` was its last
      reference. */
  lemma ReleaseCopyKeepsCounted(m: RamMapping, b: map<u64, Block>, t: seq<seq<ImageInfo>>, f: set<u64>, node: u64, x: u64)
    requires TableOk(t, b) && RefsOk(m, b, t, f, multiset{})
    requires node in b && CopySourceOf(m, b[node].rec) == Some(x) && LiveImage(b, x)
    requires var c := m.Virt(b[x].rec.image.bitmap.data); c in b ==> Unreferencing(b[c].rec)
    ensures var r := Destroyed(m, b, t, x);
            && RefsOk(m, r.0 - {node}, r.1, f - {node}, multiset{})
            && (x !in r.0 <==> Referrers(m, b, x) == {node})
  {
    assert node in Referrers(m, b, x);
    var img := b[x].rec.image;
    var hash := ToU32(img.id);
    var bk := Bucket(hash);
    var found := LookupImageInfo(t, b, hash, img.width, img.height);
    var chunk := m.Virt(U64ToPointer(img.bitmap.data));
    var r := Referrers(m, b, x);
    var d := Destroyed(m, b, t, x);
    if found.Some? && t[bk][found.value].image == x {
      var k := found.value;
      assert CountsExact(m, b, t, multiset{});
      if t[bk][k].refCount - 1 != 0 {
        assert d == (b, t[bk := t[bk][k := ImageInfo(x, t[bk][k].refCount - 1)]]);
        RecountRelease(m, b, t, f, bk, k, node);
        assert r != {node};
      } else {
        assert d == (b - {chunk, x}, t[bk := Unlink(t[bk], x)]);
        OnlyElement(r, node);
        UnlinkLast(m, b, t, f, bk, k, node, chunk);
      }
    } else {
      assert d == (b - {chunk, x}, t);
      MissedImageNotCached(t, b, x);
      assert UncachedSingle(m, b, t, multiset{});
      OnlyElement(r, node);
      FreeLastReference(m, b, t, t, f, node, x, chunk);
    }
  }

  /** The released drawable was not the last reference: its image's node loses one count. */
  lemma RecountRelease(m: RamMapping, b: map<u64, Block>, t: seq<seq<ImageInfo>>, f: set<u64>, bk: nat, k: nat, node: u64)
    requires TableOk(t, b) && RefsOk(m, b, t, f, multiset{})
    requires bk < |t| && k < |t[bk]| && node in Referrers(m, b, t[bk][k].image)
    ensures RefsOk(m, b - {node}, t[bk := t[bk][k := ImageInfo(t[bk][k].image, t[bk][k].refCount - 1)]], f - {node}, multiset{})
  {
    var x := t[bk][k].image;
    var b' := b - {node};
    var t': seq<seq<ImageInfo>> := t[bk := t[bk][k := ImageInfo(x, t[bk][k].refCount - 1)]];
    ReferrersKept(m, b, b', x);
    RecountCounts(m, b, t, bk, k, node);
    RecountUncached(m, b, t, bk, k, node);
    assert SourcesLive(m, b') by {
      assert SourcesLive(m, b);
    }
    assert InFlightReady(b', f - {node}) by {
      assert InFlightReady(b, f);
    }
  }

  lemma RecountCounts(m: RamMapping, b: map<u64, Block>, t: seq<seq<ImageInfo>>, bk: nat, k: nat, node: u64)
    requires TableOk(t, b) && CountsExact(m, b, t, multiset{})
    requires bk < |t| && k < |t[bk]| && node in Referrers(m, b, t[bk][k].image)
    requires forall y :: y != t[bk][k].image ==> Referrers(m, b - {node}, y) == Referrers(m, b, y)
    ensures CountsExact(m, b - {node}, t[bk := t[bk][k := ImageInfo(t[bk][k].image, t[bk][k].refCount - 1)]], multiset{})
  {
    var x := t[bk][k].image;
    var b' := b - {node};
    var t': seq<seq<ImageInfo>> := t[bk := t[bk][k := ImageInfo(x, t[bk][k].refCount - 1)]];
    assert Referrers(m, b, x) == Referrers(m, b', x) + {node};
    forall i, j | 0 <= i < |t'| && 0 <= j < |t'[i]|
      ensures t'[i][j].refCount == |Referrers(m, b', t'[i][j].image)|
    {
      if i != bk || j != k {
        CachedImageUnique(t, b, bk, k, i, j);
        assert t'[i][j] == t[i][j];
      }
    }
  }

  lemma RecountUncached(m: RamMapping, b: map<u64, Block>, t: seq<seq<ImageInfo>>, bk: nat, k: nat, node: u64)
    requires UncachedSingle(m, b, t, multiset{})
    requires bk < |t| && k < |t[bk]|
    requires forall y :: y != t[bk][k].image ==> Referrers(m, b - {node}, y) == Referrers(m, b, y)
    ensures UncachedSingle(m, b - {node}, t[bk := t[bk][k := ImageInfo(t[bk][k].image, t[bk][k].refCount - 1)]], multiset{})
  {
    var x := t[bk][k].image;
    var b' := b - {node};
    var t': seq<seq<ImageInfo>> := t[bk := t[bk][k := ImageInfo(x, t[bk][k].refCount - 1)]];
    assert t'[bk][k].image == x;
    forall y | InTable(t, y)
      ensures InTable(t', y)
    {
      var i, j :| 0 <= i < |t| && 0 <= j < |t[i]| && t[i][j].image == y;
      assert t'[i][j].image == y;
    }
    forall y | LiveImage(b', y) && !InTable(t', y)
      ensures |Referrers(m, b', y)| <= 1
    {
    }
  }

  /** The released drawable was the last reference to a cached image: the node goes. */
  lemma UnlinkLast(m: RamMapping, b: map<u64, Block>, t: seq<seq<ImageInfo>>, f: set<u64>, bk: nat, k: nat, node: u64,
                   chunk: u64)
    requires TableOk(t, b) && RefsOk(m, b, t, f, multiset{})
    requires bk < |t| && k < |t[bk]| && Referrers(m, b, t[bk][k].image) == {node}
    requires chunk in b ==> Unreferencing(b[chunk].rec)
    ensures var x := t[bk][k].image;
            LiveImage(b, x) && RefsOk(m, b - {chunk, x} - {node}, t[bk := Unlink(t[bk], x)], f - {node}, multiset{})
  {
    var x := t[bk][k].image;
    assert EntryOk(b, bk, t[bk][k]);
    UnlinkedEntries(m, b, t, bk, k);
    FreeLastReference(m, b, t, t[bk := Unlink(t[bk], x)], f, node, x, chunk);
  }

  /** Unlinking node `k` of bucket `bk` leaves the other nodes, exactly counted, and no node of
      its image. */
  lemma UnlinkedEntries(m: RamMapping, b: map<u64, Block>, t: seq<seq<ImageInfo>>, bk: nat, k: nat)
    requires TableOk(t, b) && CountsExact(m, b, t, multiset{}) && bk < |t| && k < |t[bk]|
    ensures var x := t[bk][k].image;
            var t': seq<seq<ImageInfo>> := t[bk := Unlink(t[bk], x)];
            && (forall i, j :: 0 <= i < |t'| && 0 <= j < |t'[i]| ==>
                  t'[i][j].image != x && t'[i][j].refCount == |Referrers(m, b, t'[i][j].image)|)
            && (forall y :: y != x && InTable(t, y) ==> InTable(t', y))
  {
    var x := t[bk][k].image;
    UnlinkAt(t[bk], x);
    FirstIndexIsNode(t, b, bk, k);
    UnlinkedCounts(m, b, t, bk, k);
    UnlinkedKeeps(t, bk, k);
  }

  lemma UnlinkedCounts(m: RamMapping, b: map<u64, Block>, t: seq<seq<ImageInfo>>, bk: nat, k: nat)
    requires TableOk(t, b) && CountsExact(m, b, t, multiset{}) && bk < |t| && k < |t[bk]|
    ensures var t': seq<seq<ImageInfo>> := t[bk := t[bk][..k] + t[bk][k + 1..]];
            forall i, j :: 0 <= i < |t'| && 0 <= j < |t'[i]| ==>
              t'[i][j].image != t[bk][k].image && t'[i][j].refCount == |Referrers(m, b, t'[i][j].image)|
  {
    var t': seq<seq<ImageInfo>> := t[bk := t[bk][..k] + t[bk][k + 1..]];
    forall i, j | 0 <= i < |t'| && 0 <= j < |t'[i]|
      ensures t'[i][j].image != t[bk][k].image && t'[i][j].refCount == |Referrers(m, b, t'[i][j].image)|
    {
      var j' := if i == bk && j >= k then j + 1 else j;
      assert t'[i][j] == t[i][j'];
      CachedImageUnique(t, b, bk, k, i, j');
    }
  }

  lemma UnlinkedKeeps(t: seq<seq<ImageInfo>>, bk: nat, k: nat)
    requires bk < |t| && k < |t[bk]|
    ensures var t': seq<seq<ImageInfo>> := t[bk := t[bk][..k] + t[bk][k + 1..]];
            forall y :: y != t[bk][k].image && InTable(t, y) ==> InTable(t', y)
  {
    var t': seq<seq<ImageInfo>> := t[bk := t[bk][..k] + t[bk][k + 1..]];
    forall y | y != t[bk][k].image && InTable(t, y)
      ensures InTable(t', y)
    {
      var i, j :| 0 <= i < |t| && 0 <= j < |t[i]| && t[i][j].image == y;
      var j' := if i == bk && j > k then j - 1 else j;
      assert t'[i][j'] == t[i][j];
    }
  }

  /** Freeing an image whose last reference is the released drawable `node`, with the image's
      chunk and the drawable, keeps the counts exact in a table that no longer holds the image. */
  lemma FreeLastReference(m: RamMapping, b: map<u64, Block>, t: seq<seq<ImageInfo>>, t': seq<seq<ImageInfo>>,
                          f: set<u64>, node: u64, x: u64, chunk: u64)
    requires RefsOk(m, b, t, f, multiset{})
    requires LiveImage(b, x) && Referrers(m, b, x) == {node}
    requires chunk in b ==> Unreferencing(b[chunk].rec)
    requires forall i, j :: 0 <= i < |t'| && 0 <= j < |t'[i]| ==>
               t'[i][j].image != x && t'[i][j].refCount == |Referrers(m, b, t'[i][j].image)|
    requires forall y :: y != x && InTable(t, y) ==> InTable(t', y)
    ensures RefsOk(m, b - {chunk, x} - {node}, t', f - {node}, multiset{})
  {
    var b' := b - {chunk, x} - {node};
    assert node in Referrers(m, b, x);
    ReferrersKept(m, b, b', x);
    assert SourcesLive(m, b') by {
      assert SourcesLive(m, b);
      forall a | a in b' && CopySourceOf(m, b'[a].rec).Some?
        ensures LiveImage(b', CopySourceOf(m, b'[a].rec).value)
      {
        var y := CopySourceOf(m, b[a].rec).value;
        assert a in Referrers(m, b, y);
      }
    }
    assert CountsExact(m, b', t', multiset{});
    assert UncachedSingle(m, b', t', multiset{}) by {
      assert UncachedSingle(m, b, t, multiset{});
    }
    assert InFlightReady(b', f - {node}) by {
      assert InFlightReady(b, f);
    }
  }

  /** A new block the device does not hold and that names no image leaves exact counts exact. */
  lemma AddedBlockCounted(m: RamMapping, h: Mem, a: u64)
    requires a in h.blocks && a !in h.inFlight && Unreferencing(h.blocks[a].rec)
    ensures Counted(m, h.(blocks := h.blocks - {a})) ==> Counted(m, h)
  {
    if Counted(m, h.(blocks := h.blocks - {a})) {
      RefsOkUpdate(m, h.blocks - {a}, h.table, h.inFlight, multiset{}, h.blocks, h.inFlight, a);
    }
  }

  /** Writing the record at `a` and possibly handing it to the device keeps exact counts exact
      when neither the old nor the new record names an image. */
  lemma WrittenBlockCounted(m: RamMapping, h1: Mem, h2: Mem, a: u64)
    requires a in h1.blocks && Unreferencing(h1.blocks[a].rec) && h2.table == h1.table
    requires a in h2.blocks && h2.blocks == h1.blocks[a := h2.blocks[a]]
    requires Unreferencing(h2.blocks[a].rec) && CopyReady(h2.blocks[a].rec)
    requires h2.inFlight == h1.inFlight || h2.inFlight == h1.inFlight + {a}
    ensures Counted(m, h1) ==> Counted(m, h2)
  {
    if Counted(m, h1) {
      RefsOkUpdate(m, h1.blocks, h1.table, h1.inFlight, multiset{}, h2.blocks, h1.inFlight, a);
      RefsOkPush(m, h2.blocks, h2.table, h1.inFlight, multiset{}, a);
    }
  }

  /** Releasing one node keeps the memory invariant and leaves memory as a collection may. */
  lemma ReleaseSurvives(m: RamMapping, h: Mem, id: u64)
    requires MemOk(m, h) && |h.table| == HASH_SIZE && Release(m, h, id).Some?
    ensures MemOk(m, Release(m, h, id).value.0)
    ensures Survives(m, h.blocks, h.inFlight, h.table,
                     Release(m, h, id).value.0.blocks, Release(m, h, id).value.0.inFlight, Release(m, h, id).value.0.table)
  {
    var node := ReleaseRecord(id);
    var h1 := Release(m, h, id).value.0;
    var b := h.blocks;
    match b[node].rec {
      case CursorCmdRec(cmd) =>
        if cmd.cmdType == QXL_CURSOR_SET {
          var cursor := m.Virt(U64ToPointer(cmd.shape));
          FreeOther(m, b, h.table, h.inFlight, cursor);
          FreeOther(m, b - {cursor}, h.table, h.inFlight, node);
          SurvivesTrans(m, b, h.inFlight, h.table, b - {cursor}, h.inFlight, h.table,
                        h1.blocks, h.inFlight, h.table);
        } else {
          FreeOther(m, b, h.table, h.inFlight, node);
        }
        InFlightShrinks(m, b, h.inFlight, h.table, h1.blocks, h1.table, node);
      case DrawableRec(d) =>
        if d.drawType == QXL_DRAW_COPY {
          var image := m.Virt(U64ToPointer(d.body.srcBitmap));
          DestroyKeepsHeapOk(m, b, h.table, h.inFlight, image);
          var r := Destroyed(m, b, h.table, image);
          FreeOther(m, r.0, r.1, h.inFlight, node);
          SurvivesTrans(m, b, h.inFlight, h.table, r.0, h.inFlight, r.1, h1.blocks, h.inFlight, r.1);
        } else {
          FreeOther(m, b, h.table, h.inFlight, node);
        }
        InFlightShrinks(m, b, h.inFlight, h.table, h1.blocks, h1.table, node);
    }
  }

  /** Freeing a block that is neither an image nor a chunk keeps the memory invariant, provided
      the records in flight stay live, and frees nothing the collector keeps unless that block
      is in flight or a cursor. */
  lemma FreeOther(m: RamMapping, b: map<u64, Block>, t: seq<seq<ImageInfo>>, f: set<u64>, x: u64)
    requires HeapOk(m, b, t, f) && x in b && !b[x].rec.ImageRec? && !b[x].rec.ChunkRec?
    requires x in f || b[x].rec.CursorRec?
    ensures TableOk(t, b - {x}) && ImagesOwnChunks(b - {x}, m)
    ensures (forall a :: a in f - {x} ==> a in b - {x})
    ensures Survives(m, b, f, t, b - {x}, f, t)
  {
    forall a | InTable(t, a)
      ensures a in b - {x} && (b - {x})[a] == b[a]
    {
      var b1, k1 :| 0 <= b1 < |t| && 0 <= k1 < |t[b1]| && t[b1][k1].image == a;
      assert EntryOk(b, b1, t[b1][k1]);
    }
    TableOkFrame(t, b, b - {x});
    SurvivesRefl(m, b, f, t);
    forall a | Kept(b, f, m, a)
      ensures a in b - {x}
    {
    }
  }

  /** Taking the released node out of the in-flight set keeps the memory invariant. */
  lemma InFlightShrinks(m: RamMapping, b0: map<u64, Block>, f: set<u64>, t0: seq<seq<ImageInfo>>,
                        b1: map<u64, Block>, t1: seq<seq<ImageInfo>>, node: u64)
    requires TableOk(t1, b1) && ImagesOwnChunks(b1, m) && Submap(b1, b0)
    requires forall a :: a in f - {node} ==> a in b1
    requires forall a :: a in f ==> a in b0 && (b0[a].rec.DrawableRec? || b0[a].rec.CursorCmdRec?)
    requires Survives(m, b0, f, t0, b1, f, t1)
    ensures HeapOk(m, b1, t1, f - {node}) && Survives(m, b0, f, t0, b1, f - {node}, t1)
  {
  }

  /** Following a batch keeps the memory invariant and frees only what the collector may. */
  lemma {:induction false} WalkKeepsMemOk(m: RamMapping, h: Mem, id: u64)
    requires MemOk(m, h) && |h.table| == HASH_SIZE
    ensures MemOk(m, Walk(m, h, id)) && Collected(m, h, Walk(m, h, id))
    decreases |h.inFlight|
  {
    SurvivesRefl(m, h.blocks, h.inFlight, h.table);
    if id != 0 {
      match Release(m, h, id)
      case None =>
      case Some((h1, next)) =>
        ReleaseKeepsMemOk(m, h, id);
        WalkKeepsMemOk(m, h1, next);
        var h2 := Walk(m, h1, next);
        SurvivesTrans(m, h.blocks, h.inFlight, h.table, h1.blocks, h1.inFlight, h1.table,
                      h2.blocks, h2.inFlight, h2.table);
    }
  }

  lemma CollectedTrans(m: RamMapping, h0: Mem, h1: Mem, h2: Mem)
    requires Collected(m, h0, h1) && Collected(m, h1, h2)
    ensures Collected(m, h0, h2)
  {
    SurvivesTrans(m, h0.blocks, h0.inFlight, h0.table, h1.blocks, h1.inFlight, h1.table,
                  h2.blocks, h2.inFlight, h2.table);
  }

  /** Collecting every batch keeps the memory invariant and frees only what the collector may. */
  lemma {:induction false} CollectKeepsMemOk(m: RamMapping, h: Mem, ids: seq<u64>)
    requires MemOk(m, h) && |h.table| == HASH_SIZE
    ensures MemOk(m, Collect(m, h, ids)) && Collected(m, h, Collect(m, h, ids))
    decreases |ids|
  {
    if ids == [] {
      SurvivesRefl(m, h.blocks, h.inFlight, h.table);
    } else {
      var h1 := Walk(m, h, ids[0]);
      WalkKeepsMemOk(m, h, ids[0]);
      CollectKeepsMemOk(m, h1, ids[1..]);
      var h2 := Collect(m, h1, ids[1..]);
      SurvivesTrans(m, h.blocks, h.inFlight, h.table, h1.blocks, h1.inFlight, h1.table,
                    h2.blocks, h2.inFlight, h2.table);
    }
  }

  /** The body of the inner loop of `garbage_collect` for one id: the cleanup its kind calls for,
      the read of `next`, and the free of the record.  `ok` is false, and nothing has changed,
      when the id does not name what the collector takes it for. */
  method ReleaseNode(s: Screen, id: u64) returns (next: u64, ok: bool)
    requires s.Valid()
    modifies s`table, s`inFlight, s.pool
    ensures s.Valid() && s.pool.calls == old(s.pool.calls)
    ensures ok <==> Release(s.mapping, old(MemOf(s)), id).Some?
    ensures ok ==> (MemOf(s), next) == Release(s.mapping, old(MemOf(s)), id).value
    ensures !ok ==> MemOf(s) == old(MemOf(s))
  {
    var node := U64ToPointer(ReleaseRecord(id));
    var isCursor := ReleaseTag(id) == 1;
    if node !in s.inFlight || node !in s.pool.blocks {
      return 0, false;
    }
    var rec := s.pool.blocks[node].rec;
    if isCursor && rec.CursorCmdRec? {
      next, ok := ReleaseCursorCmd(s, id);
    } else if !isCursor && rec.DrawableRec? {
      next, ok := ReleaseDrawable(s, id);
    } else {
      return 0, false;
    }
  }

  /** `ReleaseNode` for a cursor command: a SET command's shape is freed first. */
  method ReleaseCursorCmd(s: Screen, id: u64) returns (next: u64, ok: bool)
    requires s.Valid() && ReleaseTag(id) == 1
    requires ReleaseRecord(id) in s.inFlight && ReleaseRecord(id) in s.pool.blocks
    requires s.pool.blocks[ReleaseRecord(id)].rec.CursorCmdRec?
    modifies s`inFlight, s.pool
    ensures s.Valid() && s.pool.calls == old(s.pool.calls)
    ensures ok <==> Release(s.mapping, old(MemOf(s)), id).Some?
    ensures ok ==> (MemOf(s), next) == Release(s.mapping, old(MemOf(s)), id).value
    ensures !ok ==> MemOf(s) == old(MemOf(s))
  {
    ghost var h0 := MemOf(s);
    var node := U64ToPointer(ReleaseRecord(id));
    var cmd := s.pool.blocks[node].rec.cmd;
    if cmd.cmdType == QXL_CURSOR_SET {
      var cursor := s.mapping.Virt(U64ToPointer(cmd.shape));
      if cursor !in s.pool.blocks || !s.pool.blocks[cursor].rec.CursorRec? {
        return 0, false;
      }
      FreeUnowned(s, cursor);
    }
    next := cmd.releaseInfo.Next();
    ghost var h1 := MemOf(s);
    assert Release(s.mapping, h0, id) == Some((h1.(blocks := h1.blocks - {node}, inFlight := h1.inFlight - {node}), next));
    FreeReleased(s, node);
    ok := true;
  }

  /** `ReleaseNode` for a drawable: a COPY drawable's source image is destroyed first. */
  method ReleaseDrawable(s: Screen, id: u64) returns (next: u64, ok: bool)
    requires s.Valid() && ReleaseTag(id) != 1
    requires ReleaseRecord(id) in s.inFlight && ReleaseRecord(id) in s.pool.blocks
    requires s.pool.blocks[ReleaseRecord(id)].rec.DrawableRec?
    modifies s`table, s`inFlight, s.pool
    ensures s.Valid() && s.pool.calls == old(s.pool.calls)
    ensures ok <==> Release(s.mapping, old(MemOf(s)), id).Some?
    ensures ok ==> (MemOf(s), next) == Release(s.mapping, old(MemOf(s)), id).value
    ensures !ok ==> MemOf(s) == old(MemOf(s))
  {
    ghost var h0 := MemOf(s);
    var node := U64ToPointer(ReleaseRecord(id));
    var drawable := s.pool.blocks[node].rec.drawable;
    if drawable.drawType == QXL_DRAW_COPY {
      var destroyed := DestroySource(s, drawable);
      if !destroyed {
        return 0, false;
      }
    }
    next := drawable.releaseInfo.Next();
    ghost var h1 := MemOf(s);
    assert Release(s.mapping, h0, id) == Some((h1.(blocks := h1.blocks - {node}, inFlight := h1.inFlight - {node}), next));
    FreeReleased(s, node);
    ok := true;
  }

  /** The `compat_qxl_image_destroy` of a COPY drawable's source image, when the drawable names
      a live image (`ok`). */
  method DestroySource(s: Screen, drawable: Drawable) returns (ok: bool)
    requires s.Valid()
    modifies s`table, s.pool
    ensures s.Valid() && s.pool.calls == old(s.pool.calls) && s.inFlight == old(s.inFlight)
    ensures ok <==> && drawable.body.Copy?
                    && var image := s.mapping.Virt(U64ToPointer(drawable.body.srcBitmap));
                       image in old(s.pool.blocks) && old(s.pool.blocks)[image].rec.ImageRec?
    ensures ok ==> (s.pool.blocks, s.table) ==
                   Destroyed(s.mapping, old(s.pool.blocks), old(s.table), s.mapping.Virt(U64ToPointer(drawable.body.srcBitmap)))
    ensures ok ==> HeapOk(s.mapping, s.pool.blocks, s.table, s.inFlight)
    ensures ok ==> Survives(s.mapping, old(s.pool.blocks), s.inFlight, old(s.table), s.pool.blocks, s.inFlight, s.table)
    ensures ok ==> forall a :: (a in old(s.pool.blocks) && !old(s.pool.blocks)[a].rec.ImageRec? &&
                                !old(s.pool.blocks)[a].rec.ChunkRec?) ==> a in s.pool.blocks
    ensures !ok ==> s.pool.blocks == old(s.pool.blocks) && s.table == old(s.table)
  {
    if !drawable.body.Copy? {
      return false;
    }
    var image := s.mapping.Virt(U64ToPointer(drawable.body.srcBitmap));
    if image !in s.pool.blocks || !s.pool.blocks[image].rec.ImageRec? {
      return false;
    }
    DestroyKeepsHeapOk(s.mapping, s.pool.blocks, s.table, s.inFlight, image);
    ImageDestroy(s, image);
    ok := true;
  }

  /** `compat_qxl_free` of a cursor shape: no image, chunk or record in flight. */
  method FreeUnowned(s: Screen, a: u64)
    requires s.Valid() && a in s.pool.blocks && s.pool.blocks[a].rec.CursorRec?
    modifies s.pool
    ensures s.Valid() && s.pool.calls == old(s.pool.calls)
    ensures s.pool.blocks == old(s.pool.blocks) - {a}
  {
    FreeOther(s.mapping, s.pool.blocks, s.table, s.inFlight, a);
    s.pool.Free(a);
    s.ValidFromHeap();
  }

  /** `compat_qxl_free` of a released record, which is then no longer in flight. */
  method FreeReleased(s: Screen, node: u64)
    requires s.Valid() && node in s.inFlight
    modifies s`inFlight, s.pool
    ensures s.Valid() && s.pool.calls == old(s.pool.calls)
    ensures s.pool.blocks == old(s.pool.blocks) - {node} && s.inFlight == old(s.inFlight) - {node}
  {
    ghost var b0 := s.pool.blocks;
    FreeOther(s.mapping, b0, s.table, s.inFlight, node);
    InFlightShrinks(s.mapping, b0, s.inFlight, s.table, b0 - {node}, s.table, node);
    s.pool.Free(node);
    s.inFlight := s.inFlight - {node};
    s.ValidFromHeap();
  }

  /** `garbage_collect`: pops every id from the release ring and walks each batch to its end.
      The count it reports progress by is never incremented, so it always answers false. */
  method GarbageCollect(s: Screen) returns (progress: bool)
    requires s.Valid()
    modifies s`table, s`inFlight, s`protocolError, s.pool, s.releaseRing
    ensures s.Valid() && s.pool.calls == old(s.pool.calls)
    ensures MemOf(s) == Collect(s.mapping, old(MemOf(s)), old(s.releaseRing.items))
    ensures Collected(s.mapping, old(MemOf(s)), MemOf(s))
    ensures s.releaseRing.items == [] && !progress
  {
    ghost var h0, ids0 := MemOf(s), s.releaseRing.items;
    var i := 0;
    var popped := s.releaseRing.Pop();
    while popped.Some?
      invariant s.Valid() && s.pool.calls == old(s.pool.calls)
      invariant popped.None? ==> s.releaseRing.items == []
      invariant Collect(s.mapping, h0, ids0)
                == Collect(s.mapping, MemOf(s), (if popped.Some? then [popped.value] else []) + s.releaseRing.items)
      decreases |s.releaseRing.items| + (if popped.Some? then 1 else 0)
    {
      ghost var rest := s.releaseRing.items;
      assert Collect(s.mapping, h0, ids0) == Collect(s.mapping, Walk(s.mapping, MemOf(s), popped.value), rest);
      WalkBatch(s, popped.value);
      popped := s.releaseRing.Pop();
    }
    CollectKeepsMemOk(s.mapping, h0, ids0);
    return i > 0;
  }

  /** The inner loop of `garbage_collect`: releases the nodes of one batch until an id of 0, or
      until a node is not what the collector takes it for. */
  method WalkBatch(s: Screen, first: u64)
    requires s.Valid()
    modifies s`table, s`inFlight, s`protocolError, s.pool
    ensures s.Valid() && s.pool.calls == old(s.pool.calls)
    ensures MemOf(s) == Walk(s.mapping, old(MemOf(s)), first)
  {
    ghost var h0 := MemOf(s);
    var id := first;
    while id != 0
      invariant s.Valid() && s.pool.calls == old(s.pool.calls)
      invariant Walk(s.mapping, h0, first) == Walk(s.mapping, MemOf(s), id)
      decreases |s.inFlight|
    {
      var next, ok := ReleaseNode(s, id);
      if !ok {
        s.protocolError := true;
        return;
      }
      id := next;
    }
  }

  /** The `timespec` `compat_qxl_usleep` sleeps for: whole seconds, and the rest in nanoseconds,
      both carrying the sign of the argument. */
  function UsleepSplit(useconds: int): (t: (int, int))
    ensures t.0 * 1000000 * 1000 + t.1 == useconds * 1000
    ensures useconds >= 0 ==> t.0 >= 0 && 0 <= t.1 < 1000000000
    ensures useconds <= 0 ==> t.0 <= 0 && -1000000000 < t.1 <= 0
  {
    var sec := CDiv(useconds, 1000000);
    (sec, (useconds - sec * 1000000) * 1000)
  }

  /** The 10 ms pause after each failed allocation is no whole second and 10^7 nanoseconds. */
  lemma OomPause()
    ensures UsleepSplit(10000) == (0, 10000000)
  {
  }

  /** What one failed allocation in `compat_qxl_allocnf` does outside the pool, in order: the
      update area becomes top 0, left 0, bottom 1280, right 800, the device is told to update
      it, the `nth`-th out-of-memory message, the OOM notification, and a 10 ms sleep. */
  function OomRound(ioBase: int, nth: int): (r: seq<IoEvent>)
    ensures |r| == 5 && r[0] == UpdateArea(OOM_AREA) && r[2] == OomMessage(nth)
    ensures r[1] == Outb(ioBase + QXL_IO_UPDATE_AREA, 0) && r[3] == Outb(ioBase + QXL_IO_NOTIFY_OOM, 0)
    ensures r[4] == Sleep(0, 10000000)
  {
    var pause := UsleepSplit(10000);
    [UpdateArea(OOM_AREA), Outb(ioBase + QXL_IO_UPDATE_AREA, 0), OomMessage(nth),
     Outb(ioBase + QXL_IO_NOTIFY_OOM, 0), Sleep(pause.0, pause.1)]
  }

  const OOM_AREA := Rect(0, 0, 1280, 800)

  /** `n` failed allocations in a row, numbered from `nth` on. */
  function OomRounds(ioBase: int, nth: int, n: nat): (r: seq<IoEvent>)
    ensures |r| == 5 * n
  {
    if n == 0 then [] else OomRounds(ioBase, nth, n - 1) + OomRound(ioBase, nth + n - 1)
  }

  /** Each round of the log names the area before it writes to a port, and numbers its message
      one more than the round before. */
  lemma {:induction false} OomRoundAt(ioBase: int, nth: int, n: nat, i: nat)
    requires i < n
    ensures OomRounds(ioBase, nth, n)[5 * i..5 * i + 5] == OomRound(ioBase, nth + i)
  {
    if i < n - 1 {
      OomRoundAt(ioBase, nth, n - 1, i);
      assert OomRounds(ioBase, nth, n)[5 * i..5 * i + 5] == OomRounds(ioBase, nth, n - 1)[5 * i..5 * i + 5];
    } else {
      assert OomRounds(ioBase, nth, n)[5 * i..5 * i + 5] == OomRound(ioBase, nth + n - 1);
    }
  }

  /** The driver's last words after the 1000th failure in a row: the error message and `exit (1)`. */
  method ReportExit(s: Screen)
    requires s.Valid()
    modifies s`events
    ensures s.Valid() && s.events == old(s.events) + [OutOfMemory, Exit(1)] && Exited(s.events)
  {
    s.events := s.events + [OutOfMemory, Exit(1)];
  }

  /** What `compat_qxl_allocnf` promises, from the state `(h0, calls0, nth0, events0, header0)` it
      starts in to the state `(h, calls, nth, events, header)` it ends in: a block of the size
      asked for that holds nothing yet, is not in flight and was not live after the last
      collection, which only freed what the collector may; or, after 1000 failures in a row,
      nothing and an exit.  Every failure costs one allocator request and one report. */
  ghost predicate AllocNfOutcome(m: RamMapping, ioBase: int, size: nat, r: Option<u64>,
                                 h0: Mem, calls0: nat, nth0: int, events0: seq<IoEvent>, header0: RamHeader,
                                 h: Mem, calls: nat, nth: int, events: seq<IoEvent>, header: RamHeader)
  {
    var failures := calls - calls0 - (if r.Some? then 1 else 0);
    && (r.Some? ==> && r.value in h.blocks && h.blocks[r.value] == Block(size, Raw)
                    && r.value !in h.inFlight
                    && Collected(m, h0, h.(blocks := h.blocks - {r.value})))
    && (r.None? ==> Collected(m, h0, h) && failures == 1000)
    && 0 <= failures <= 1000
    && nth == nth0 + failures
    && events == events0 + OomRounds(ioBase, nth0, failures) + (if r.None? then [OutOfMemory, Exit(1)] else [])
    && header == if failures == 0 then header0 else header0.(updateArea := OOM_AREA)
  }

  /** `compat_qxl_allocnf`: collects released records, then asks the allocator until it yields
      a block, reporting each failure to the device and collecting again.  The collector never
      reports progress, so the 1000th failure in a row ends the driver (`None`, logged as
      `exit (1)`). */
  method AllocNf(s: Screen, size: nat) returns (r: Option<u64>)
    requires s.Valid()
    modifies s`table, s`inFlight, s`protocolError, s.pool, s.releaseRing, s`ramHeader, s`events, s`nthOom
    ensures s.Valid()
    ensures AllocNfOutcome(s.mapping, s.ioBase, size, r,
                           old(MemOf(s)), old(s.pool.calls), old(s.nthOom), old(s.events), old(s.ramHeader),
                           MemOf(s), s.pool.calls, s.nthOom, s.events, s.ramHeader)
  {
    ghost var calls0, nth0, events0, header0 := s.pool.calls, s.nthOom, s.events, s.ramHeader;
    ghost var h0 := MemOf(s);
    var nAttempts := 0;
    var _ := GarbageCollect(s);
    RetryStart(s.mapping, s.ioBase, h0, calls0, nth0, events0, header0, MemOf(s));
    while true
      invariant s.Valid()
      invariant Retrying(s.mapping, s.ioBase, h0, calls0, nth0, events0, header0, nAttempts,
                         MemOf(s), s.pool.calls, s.nthOom, s.events, s.ramHeader)
      decreases 1000 - nAttempts
    {
      r, nAttempts := AllocAttempt(s, size, nAttempts, h0, calls0, nth0, events0, header0);
      if r.Some? || nAttempts == 1000 {
        return;
      }
    }
  }

  /** What callers of `compat_qxl_allocnf` rely on: a block of the size asked for that holds
      nothing yet, with memory otherwise as a collection left it; or the driver has ended. */
  method AllocBlock(s: Screen, size: nat) returns (r: Option<u64>)
    requires s.Valid()
    modifies s`table, s`inFlight, s`protocolError, s.pool, s.releaseRing, s`ramHeader, s`events, s`nthOom
    ensures s.Valid() && old(s.events) <= s.events
    ensures r.None? ==> Exited(s.events) && Collected(s.mapping, old(MemOf(s)), MemOf(s))
    ensures r.Some? ==> && r.value in s.pool.blocks && s.pool.blocks[r.value] == Block(size, Raw)
                        && Collected(s.mapping, old(MemOf(s)), MemOf(s).(blocks := s.pool.blocks - {r.value}))
  {
    r := AllocNf(s, size);
  }

  /** One turn of the loop of `compat_qxl_allocnf`: an allocation and, when it fails, the report,
      the collection and the attempt count that follow; the 1000th failure in a row is logged as
      `exit (1)`. */
  method AllocAttempt(s: Screen, size: nat, n: int, ghost h0: Mem, ghost calls0: nat, ghost nth0: int,
                      ghost events0: seq<IoEvent>, ghost header0: RamHeader)
    returns (r: Option<u64>, n': int)
    requires s.Valid()
    requires Retrying(s.mapping, s.ioBase, h0, calls0, nth0, events0, header0, n,
                      MemOf(s), s.pool.calls, s.nthOom, s.events, s.ramHeader)
    modifies s`table, s`inFlight, s`protocolError, s.pool, s.releaseRing, s`ramHeader, s`events, s`nthOom
    ensures s.Valid()
    ensures r.Some? || n' == 1000 ==>
              AllocNfOutcome(s.mapping, s.ioBase, size, r, h0, calls0, nth0, events0, header0,
                             MemOf(s), s.pool.calls, s.nthOom, s.events, s.ramHeader)
    ensures r.None? && n' != 1000 ==>
              && n < n' < 1000
              && Retrying(s.mapping, s.ioBase, h0, calls0, nth0, events0, header0, n',
                          MemOf(s), s.pool.calls, s.nthOom, s.events, s.ramHeader)
  {
    ghost var h1, calls1, nth1, events1, header1 := MemOf(s), s.pool.calls, s.nthOom, s.events, s.ramHeader;
    var progress;
    r, progress := TryAlloc(s, size);
    if r.Some? {
      RetrySucceeds(s.mapping, s.ioBase, size, r.value, h0, calls0, nth0, events0, header0, n,
                    h1, calls1, nth1, events1, header1, MemOf(s));
      return r, n;
    }
    RetryStep(s.mapping, s.ioBase, h0, calls0, nth0, events0, header0, n,
              h1, calls1, nth1, events1, header1, MemOf(s), s.pool.calls, s.nthOom, s.events, s.ramHeader);
    n' := if progress then 0 else n + 1;
    if n' == 1000 {
      ReportExit(s);
      RetryGivesUp(s.mapping, s.ioBase, size, h0, calls0, nth0, events0, header0,
                   MemOf(s), s.pool.calls, s.nthOom, events1 + OomRound(s.ioBase, nth1), s.ramHeader);
    }
  }

  /** The state of `compat_qxl_allocnf` after `n` failed allocations, the collections after them,
      and their reports. */
  ghost predicate Retrying(m: RamMapping, ioBase: int, h0: Mem, calls0: nat, nth0: int, events0: seq<IoEvent>,
                           header0: RamHeader, n: int,
                           h: Mem, calls: nat, nth: int, events: seq<IoEvent>, header: RamHeader)
  {
    && Collected(m, h0, h) && 0 <= n < 1000
    && calls == calls0 + n && nth == nth0 + n
    && events == events0 + OomRounds(ioBase, nth0, n)
    && header == if n == 0 then header0 else header0.(updateArea := OOM_AREA)
  }

  lemma RetryStart(m: RamMapping, ioBase: int, h0: Mem, calls0: nat, nth0: int, events0: seq<IoEvent>,
                   header0: RamHeader, h: Mem)
    requires Collected(m, h0, h)
    ensures Retrying(m, ioBase, h0, calls0, nth0, events0, header0, 0, h, calls0, nth0, events0, header0)
  {
  }

  lemma RetryStep(m: RamMapping, ioBase: int, h0: Mem, calls0: nat, nth0: int, events0: seq<IoEvent>,
                  header0: RamHeader, n: int,
                  h1: Mem, calls1: nat, nth1: int, events1: seq<IoEvent>, header1: RamHeader,
                  h2: Mem, calls2: nat, nth2: int, events2: seq<IoEvent>, header2: RamHeader)
    requires Retrying(m, ioBase, h0, calls0, nth0, events0, header0, n, h1, calls1, nth1, events1, header1)
    requires Collected(m, h1, h2) && calls2 == calls1 + 1 && nth2 == nth1 + 1
    requires events2 == events1 + OomRound(ioBase, nth1) && header2 == header1.(updateArea := OOM_AREA)
    ensures n + 1 < 1000 ==> Retrying(m, ioBase, h0, calls0, nth0, events0, header0, n + 1, h2, calls2, nth2, events2, header2)
    ensures n + 1 == 1000 ==> && Collected(m, h0, h2) && calls2 == calls0 + 1000 && nth2 == nth0 + 1000
                              && events2 == events0 + OomRounds(ioBase, nth0, 1000)
                              && header2 == header0.(updateArea := OOM_AREA)
  {
    CollectedTrans(m, h0, h1, h2);
    assert OomRounds(ioBase, nth0, n + 1) == OomRounds(ioBase, nth0, n) + OomRound(ioBase, nth0 + n);
  }

  lemma RetrySucceeds(m: RamMapping, ioBase: int, size: nat, a: u64, h0: Mem, calls0: nat, nth0: int,
                      events0: seq<IoEvent>, header0: RamHeader, n: int,
                      h1: Mem, calls1: nat, nth1: int, events1: seq<IoEvent>, header1: RamHeader, h2: Mem)
    requires Retrying(m, ioBase, h0, calls0, nth0, events0, header0, n, h1, calls1, nth1, events1, header1)
    requires MemOk(m, h1) && a !in h1.blocks && h2 == h1.(blocks := h1.blocks[a := Block(size, Raw)])
    ensures AllocNfOutcome(m, ioBase, size, Some(a), h0, calls0, nth0, events0, header0,
                           h2, calls1 + 1, nth1, events1, header1)
  {
    assert h2.(blocks := h2.blocks - {a}) == h1;
  }

  lemma RetryGivesUp(m: RamMapping, ioBase: int, size: nat, h0: Mem, calls0: nat, nth0: int,
                     events0: seq<IoEvent>, header0: RamHeader,
                     h: Mem, calls: nat, nth: int, events: seq<IoEvent>, header: RamHeader)
    requires Collected(m, h0, h) && calls == calls0 + 1000 && nth == nth0 + 1000
    requires events == events0 + OomRounds(ioBase, nth0, 1000) && header == header0.(updateArea := OOM_AREA)
    ensures AllocNfOutcome(m, ioBase, size, None, h0, calls0, nth0, events0, header0,
                           h, calls, nth, events + [OutOfMemory, Exit(1)], header)
  {
  }

  /** One turn of the loop of `compat_qxl_allocnf` up to its attempt count: an allocation and,
      when it fails, the report and the collection that follow. */
  method TryAlloc(s: Screen, size: nat) returns (r: Option<u64>, progress: bool)
    requires s.Valid()
    modifies s`table, s`inFlight, s`protocolError, s.pool, s.releaseRing, s`ramHeader, s`events, s`nthOom
    ensures s.Valid() && s.pool.calls == old(s.pool.calls) + 1
    ensures r.Some? ==> && r.value !in old(s.pool.blocks)
                        && MemOf(s) == old(MemOf(s)).(blocks := old(s.pool.blocks)[r.value := Block(size, Raw)])
                        && s.nthOom == old(s.nthOom) && s.events == old(s.events) && s.ramHeader == old(s.ramHeader)
    ensures r.None? ==> && Collected(s.mapping, old(MemOf(s)), MemOf(s)) && !progress
                        && s.ramHeader == old(s.ramHeader).(updateArea := OOM_AREA) && s.nthOom == old(s.nthOom) + 1
                        && s.events == old(s.events) + OomRound(s.ioBase, old(s.nthOom))
  {
    progress := false;
    r := AllocRaw(s, size);
    if r.None? {
      progress := Recover(s);
    }
  }

  /** What `compat_qxl_allocnf` does after a failed allocation: it reports to the device and
      collects released records again. */
  method Recover(s: Screen) returns (progress: bool)
    requires s.Valid()
    modifies s`table, s`inFlight, s`protocolError, s.pool, s.releaseRing, s`ramHeader, s`events, s`nthOom
    ensures s.Valid() && s.pool.calls == old(s.pool.calls) && !progress
    ensures Collected(s.mapping, old(MemOf(s)), MemOf(s))
    ensures s.ramHeader == old(s.ramHeader).(updateArea := OOM_AREA) && s.nthOom == old(s.nthOom) + 1
    ensures s.events == old(s.events) + OomRound(s.ioBase, old(s.nthOom))
  {
    ReportOom(s);
    progress := GarbageCollect(s);
  }

  /** The report `compat_qxl_allocnf` makes to the device after a failed allocation. */
  method ReportOom(s: Screen)
    modifies s`ramHeader, s`events, s`nthOom
    ensures s.ramHeader == old(s.ramHeader).(updateArea := OOM_AREA) && s.nthOom == old(s.nthOom) + 1
    ensures s.events == old(s.events) + OomRound(s.ioBase, old(s.nthOom))
  {
    s.ramHeader := s.ramHeader.(updateArea := OOM_AREA);
    s.events := s.events + [UpdateArea(s.ramHeader.updateArea), Outb(s.ioBase + QXL_IO_UPDATE_AREA, 0)];
    s.events := s.events + [OomMessage(s.nthOom)];
    s.nthOom := s.nthOom + 1;
    s.events := s.events + [Outb(s.ioBase + QXL_IO_NOTIFY_OOM, 0)];
    var pause := UsleepSplit(10000);
    s.events := s.events + [Sleep(pause.0, pause.1)];
  }

  /** `compat_qxl_alloc` on the screen's pool: a new block holds nothing yet, so the memory
      invariant still holds. */
  method AllocRaw(s: Screen, size: nat) returns (r: Option<u64>)
    requires s.Valid()
    modifies s.pool
    ensures s.Valid() && s.pool.calls == old(s.pool.calls) + 1
    ensures r.Some? ==> r.value !in old(s.pool.blocks) && s.pool.blocks == old(s.pool.blocks)[r.value := Block(size, Raw)]
    ensures r.None? ==> s.pool.blocks == old(s.pool.blocks)
  {
    ghost var b0 := s.pool.blocks;
    r := s.pool.Alloc(size);
    if r.Some? {
      AddRawKeepsHeapOk(s.mapping, b0, s.table, s.inFlight, r.value, size);
    }
    s.ValidFromHeap();
  }

  lemma AddRawKeepsHeapOk(m: RamMapping, b: map<u64, Block>, t: seq<seq<ImageInfo>>, f: set<u64>, a: u64, n: nat)
    requires HeapOk(m, b, t, f) && a !in b
    ensures HeapOk(m, b[a := Block(n, Raw)], t, f)
  {
    forall x | InTable(t, x)
      ensures x in b[a := Block(n, Raw)] && b[a := Block(n, Raw)][x] == b[x]
    {
      var b1, k1 :| 0 <= b1 < |t| && 0 <= k1 < |t[b1]| && t[b1][k1].image == x;
      assert EntryOk(b, b1, t[b1][k1]);
    }
    TableOkFrame(t, b, b[a := Block(n, Raw)]);
  }
}
