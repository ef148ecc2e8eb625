/** The drawing-command builders and the mode switch of src/compat/compat-qxl_driver.c:
    `push_drawable`, `make_drawable`, `submit_fill`, `translate_rect`, `submit_copy` and the
    reset in `compat_qxl_switch_mode`. */
module Commands {
  import opened Protocol
  import opened Rings
  import opened Memory
  import opened ImageTable
  import opened QxlScreen
  import opened ImageCache
  import opened Collector
  import opened ImageUpload

  /** `ROPD_OP_PUT`, bit 3 of the raster-operation descriptor. */
  const ROPD_OP_PUT: u16 := 8

  /** The mask both builders write: no flags, at (0, 0), no bitmap. */
  const NO_MASK: Mask := Mask(0, Point(0, 0), 0)

  /** The header `make_drawable` writes into the drawable at `a`: its own address as untagged
      release id, opaque, no bitmap, no clipping, `bbox` and the device clock; the union is
      written afterwards by the caller. */
  function NewDrawable(a: u64, drawType: u8, bbox: Rect, mmTime: u32): (d: Drawable)
    ensures d.drawType == drawType && d.bbox == bbox && d.mmTime == mmTime && d.body.NoBody?
    ensures d.effect == QXL_EFFECT_OPAQUE && d.clipType == QXL_CLIP_TYPE_NONE
    ensures Aligned(a) ==> ReleaseTag(d.releaseInfo.Id()) == 0 && ReleaseRecord(d.releaseInfo.Id()) == a
  {
    Drawable(ReleaseInfo(PointerToU64(a)), QXL_EFFECT_OPAQUE, drawType, 0, Rect(0, 0, 0, 0), bbox,
             QXL_CLIP_TYPE_NONE, mmTime, NoBody)
  }

  /** The `fill` arm `submit_fill` writes: a solid brush of `color`, PUT, no mask. */
  function FillBody(color: u32): (b: DrawBody)
    ensures b.Fill? && b.brush == Brush(QXL_BRUSH_TYPE_SOLID, color)
    ensures b.ropDescriptor == ROPD_OP_PUT && b.mask == NO_MASK
  {
    Fill(Brush(QXL_BRUSH_TYPE_SOLID, color), ROPD_OP_PUT, NO_MASK)
  }

  /** The `copy` arm `submit_copy` writes: the source image, the source area, PUT, no scaling,
      no mask. */
  function CopyBody(srcBitmap: u64, srcArea: Rect): (b: DrawBody)
    ensures b.Copy? && b.srcBitmap == srcBitmap && b.srcArea == srcArea
    ensures b.ropDescriptor == ROPD_OP_PUT && b.scaleMode == 0 && b.mask == NO_MASK
  {
    Copy(srcBitmap, srcArea, ROPD_OP_PUT, 0, NO_MASK)
  }

  /** Width and height of a rectangle, as the unsigned 32-bit differences the source computes. */
  function Width(r: Rect): u32 { ToU32(r.right - r.left) }
  function Height(r: Rect): u32 { ToU32(r.bottom - r.top) }

  /** What `translate_rect` makes of a rectangle: the same size, moved to the origin. */
  function Translated(r: Rect): (t: Rect)
    ensures t.left == 0 && t.top == 0
    ensures Width(t) == Width(r) && Height(t) == Height(r)
  {
    Rect(0, 0, ToU32(r.bottom - r.top), ToU32(r.right - r.left))
  }

  /** Translating twice is translating once. */
  lemma TranslateIdempotent(r: Rect)
    ensures Translated(Translated(r)) == Translated(r)
  {
  }

  /** `translate_rect`: the right and bottom edges become the width and height, then the left and
      top edges become 0. */
  method TranslateRect(rect: Rect) returns (r: Rect)
    ensures r == Translated(rect)
  {
    r := rect;
    r := r.(right := ToU32(r.right - r.left));
    r := r.(bottom := ToU32(r.bottom - r.top));
    r := r.(left := 0, top := 0);
  }

  /** `submit_copy`'s test for an empty rectangle. */
  predicate EmptyRect(r: Rect)
  {
    r.left == r.right || r.top == r.bottom
  }

  /** `push_drawable`: unless the device has fallen back to VGA mode, the physical address of the
      drawable goes onto the command ring as a DRAW command, and the device then holds it. */
  method PushDrawable(s: Screen, a: u64)
    requires s.Valid() && a in s.pool.blocks && s.pool.blocks[a].rec.DrawableRec?
    requires !s.commandRing.IsFull()
    modifies s.commandRing, s`inFlight
    ensures s.Valid()
    ensures s.rom.mode != MODE_VGA ==> && s.commandRing.items == old(s.commandRing.items) + [Command(s.mapping.Phys(a), QXL_CMD_DRAW)]
                                       && s.inFlight == old(s.inFlight) + {a}
    ensures s.rom.mode == MODE_VGA ==> s.commandRing.items == old(s.commandRing.items) && s.inFlight == old(s.inFlight)
  {
    if s.rom.mode != MODE_VGA {
      var cmd := Command(s.mapping.Phys(a), QXL_CMD_DRAW);
      s.commandRing.Push(cmd);
      s.inFlight := s.inFlight + {a};
    }
  }

  /** `make_drawable`: a new drawable of `drawType` with bounding box `rect`, allocated with
      `compat_qxl_allocnf`; `None` when the driver ended for want of memory. */
  method MakeDrawable(s: Screen, drawType: u8, rect: Rect) returns (d: Option<u64>)
    requires s.Valid()
    modifies s`table, s`inFlight, s`protocolError, s.pool, s.releaseRing, s`ramHeader, s`events, s`nthOom
    ensures s.Valid() && old(s.events) <= s.events
    ensures d.None? ==> Exited(s.events)
    ensures d.Some? ==> && d.value in s.pool.blocks && d.value !in s.inFlight
                        && s.pool.blocks[d.value] == Block(SIZEOF_DRAWABLE, DrawableRec(NewDrawable(d.value, drawType, rect, s.rom.mmClock)))
                        && Collected(s.mapping, old(MemOf(s)), MemOf(s).(blocks := s.pool.blocks - {d.value}))
    ensures d.Some? && Counted(s.mapping, old(MemOf(s))) ==> Counted(s.mapping, MemOf(s))
  {
    d := AllocBlock(s, SIZEOF_DRAWABLE);
    if d.None? {
      return;
    }
    ghost var b1 := s.pool.blocks;
    StorePlain(s, d.value, DrawableRec(NewDrawable(d.value, drawType, rect, s.rom.mmClock)));
    WriteThenDrop(b1, d.value, s.pool.blocks[d.value]);
    AddedBlockCounted(s.mapping, MemOf(s), d.value);
  }

  /** Writing the copy arm that names the held image `x` into drawable `a`, and possibly handing
      the drawable to the device, leaves the counts exact with nothing held. */
  lemma NamedDrawableCounted(m: RamMapping, h1: Mem, h2: Mem, a: u64, x: u64)
    requires a in h1.blocks && Unreferencing(h1.blocks[a].rec) && h2.table == h1.table
    requires a in h2.blocks && h2.blocks == h1.blocks[a := h2.blocks[a]]
    requires !h2.blocks[a].rec.ImageRec? && CopySourceOf(m, h2.blocks[a].rec) == Some(x)
    requires h2.inFlight == h1.inFlight || h2.inFlight == h1.inFlight + {a}
    ensures RefsOk(m, h1.blocks, h1.table, h1.inFlight, multiset{x}) ==> Counted(m, h2)
  {
    if RefsOk(m, h1.blocks, h1.table, h1.inFlight, multiset{x}) {
      RefsOkNameImage(m, h1.blocks, h1.table, h1.inFlight, multiset{x}, a, x, h2.blocks[a]);
      assert multiset{x} - multiset{x} == multiset{};
      RefsOkPush(m, h2.blocks, h2.table, h1.inFlight, multiset{}, a);
    }
  }

  /** Replacing a record that names no image by one naming `x` adds that block to the referrers
      of `x` alone. */
  lemma NamedReferrers(m: RamMapping, b: map<u64, Block>, a: u64, x: u64, v: Block)
    requires a in b && Unreferencing(b[a].rec)
    requires !v.rec.ImageRec? && CopySourceOf(m, v.rec) == Some(x)
    ensures forall y :: Referrers(m, b[a := v], y) == (if y == x then Referrers(m, b, y) + {a} else Referrers(m, b, y))
    ensures forall y :: a !in Referrers(m, b, y)
    ensures forall y :: LiveImage(b[a := v], y) <==> LiveImage(b, y)
  {
    forall y
      ensures Referrers(m, b[a := v], y) == (if y == x then Referrers(m, b, y) + {a} else Referrers(m, b, y))
    {
    }
  }

  /** Writing the copy arm naming the held image `x` into a drawable moves that reference from
      the caller to the drawable: the counts stay exact with `x` held once less. */
  lemma RefsOkNameImage(m: RamMapping, b: map<u64, Block>, t: seq<seq<ImageInfo>>, f: set<u64>, held: multiset<u64>,
                        a: u64, x: u64, v: Block)
    requires RefsOk(m, b, t, f, held) && x in held
    requires a in b && Unreferencing(b[a].rec)
    requires !v.rec.ImageRec? && CopySourceOf(m, v.rec) == Some(x)
    ensures RefsOk(m, b[a := v], t, f, held - multiset{x})
  {
    var b' := b[a := v];
    var held' := held - multiset{x};
    assert LiveImage(b, x);
    NamedReferrers(m, b, a, x, v);
    assert SourcesLive(m, b') by {
      assert SourcesLive(m, b);
    }
    assert CountsExact(m, b', t, held') by {
      assert CountsExact(m, b, t, held);
    }
    assert UncachedSingle(m, b', t, held') by {
      assert UncachedSingle(m, b, t, held);
    }
    assert InFlightReady(b', f) by {
      assert InFlightReady(b, f);
    }
  }

  /** Writes the union of a drawable the device does not hold yet. */
  method SetBody(s: Screen, a: u64, body: DrawBody)
    requires s.Valid() && a in s.pool.blocks && s.pool.blocks[a].rec.DrawableRec?
    modifies s.pool
    ensures s.Valid() && s.pool.calls == old(s.pool.calls)
    ensures s.pool.blocks == old(s.pool.blocks)[a := Block(old(s.pool.blocks)[a].size,
                                                           DrawableRec(old(s.pool.blocks)[a].rec.drawable.(body := body)))]
  {
    StorePlain(s, a, DrawableRec(s.pool.blocks[a].rec.drawable.(body := body)));
  }

  /** Writes the union of a new drawable and pushes the drawable to the device. */
  method FinishDrawable(s: Screen, a: u64, body: DrawBody)
    requires s.Valid() && a in s.pool.blocks && s.pool.blocks[a].rec.DrawableRec? && a !in s.inFlight
    requires !s.commandRing.IsFull()
    modifies s.pool, s.commandRing, s`inFlight
    ensures s.Valid()
    ensures s.pool.blocks == old(s.pool.blocks)[a := Block(old(s.pool.blocks)[a].size,
                                                           DrawableRec(old(s.pool.blocks)[a].rec.drawable.(body := body)))]
    ensures s.rom.mode != MODE_VGA ==> && s.commandRing.items == old(s.commandRing.items) + [Command(s.mapping.Phys(a), QXL_CMD_DRAW)]
                                       && s.inFlight == old(s.inFlight) + {a}
    ensures s.rom.mode == MODE_VGA ==> s.commandRing.items == old(s.commandRing.items) && s.inFlight == old(s.inFlight)
  {
    SetBody(s, a, body);
    PushDrawable(s, a);
  }

  /** Writing and pushing a drawable allocated since `h0` leaves memory, apart from that
      drawable, as the collections in between made of `h0`. */
  lemma PushedCollected(m: RamMapping, h0: Mem, h1: Mem, h2: Mem, a: u64, v: Block)
    requires Collected(m, h0, h1.(blocks := h1.blocks - {a})) && a !in h1.inFlight
    requires h2.blocks == h1.blocks[a := v] && h2.table == h1.table && h2.fault == h1.fault
    requires h2.inFlight == h1.inFlight || h2.inFlight == h1.inFlight + {a}
    ensures Collected(m, h0, h2.(blocks := h2.blocks - {a}, inFlight := h2.inFlight - {a}))
  {
    WriteThenDrop(h1.blocks, a, v);
    assert h2.inFlight - {a} == h1.inFlight;
  }

  /** `submit_fill`: a FILL drawable of `color` over `rect`, pushed to the device. */
  method SubmitFill(s: Screen, rect: Rect, color: u32) returns (d: Option<u64>)
    requires s.Valid() && !s.commandRing.IsFull()
    modifies s`table, s`inFlight, s`protocolError, s.pool, s.releaseRing, s`ramHeader, s`events, s`nthOom
    modifies s.commandRing
    ensures s.Valid() && old(s.events) <= s.events
    ensures d.None? ==> Exited(s.events) && s.commandRing.items == old(s.commandRing.items)
    ensures d.Some? ==>
              && d.value in s.pool.blocks
              && s.pool.blocks[d.value] ==
                 Block(SIZEOF_DRAWABLE, DrawableRec(NewDrawable(d.value, QXL_DRAW_FILL, rect, s.rom.mmClock).(body := FillBody(color))))
              && (s.rom.mode != MODE_VGA ==> s.commandRing.items == old(s.commandRing.items) + [Command(s.mapping.Phys(d.value), QXL_CMD_DRAW)])
              && (s.rom.mode == MODE_VGA ==> s.commandRing.items == old(s.commandRing.items))
              && (d.value in s.inFlight <==> s.rom.mode != MODE_VGA)
              && Collected(s.mapping, old(MemOf(s)), MemOf(s).(blocks := s.pool.blocks - {d.value}, inFlight := s.inFlight - {d.value}))
    ensures d.Some? && Counted(s.mapping, old(MemOf(s))) ==> Counted(s.mapping, MemOf(s))
  {
    d := MakeDrawable(s, QXL_DRAW_FILL, rect);
    if d.None? {
      return;
    }
    ghost var h1 := MemOf(s);
    FinishDrawable(s, d.value, FillBody(color));
    PushedCollected(s.mapping, old(MemOf(s)), h1, MemOf(s), d.value, s.pool.blocks[d.value]);
    WrittenBlockCounted(s.mapping, h1, MemOf(s), d.value);
  }

  /** The bytes of one row of the shadow framebuffer, `displayWidth * bytes_per_pixel`. */
  function FbStride(s: Screen): nat
    reads s`displayWidth, s`bytesPerPixel
  {
    RowBytes(s.displayWidth, s.bytesPerPixel)
  }

  /** Every row of `rect` lies inside the shadow framebuffer. */
  predicate InFramebuffer(s: Screen, rect: Rect)
    reads s`fb, s`displayWidth, s`bytesPerPixel
  {
    RowsInBounds(|s.fb|, PixelOffset(rect.left as nat, rect.top as nat, FbStride(s), s.bytesPerPixel),
                 FbStride(s), RowBytes(Width(rect), s.bytesPerPixel), Height(rect))
  }

  /** The rows of `rect` in the shadow framebuffer, as `compat_qxl_image_create` hashes them. */
  ghost function FbRows(s: Screen, rect: Rect): seq<seq<u8>>
    reads s`fb, s`displayWidth, s`bytesPerPixel
    requires InFramebuffer(s, rect)
  {
    Rows(s.fb, PixelOffset(rect.left as nat, rect.top as nat, FbStride(s), s.bytesPerPixel),
         FbStride(s), RowBytes(Width(rect), s.bytesPerPixel), Height(rect))
  }

  /** The image of `rect` that `submit_copy` takes from the shadow framebuffer with
      `compat_qxl_image_create`; the drawable `keep`, allocated just before, stays as it was. */
  method CopySource(s: Screen, rect: Rect, nodeAllocated: bool, ghost keep: u64) returns (image: Option<u64>)
    requires s.Valid() && InFramebuffer(s, rect) && Kept(s.pool.blocks, s.inFlight, s.mapping, keep)
    modifies s`table, s`inFlight, s`protocolError, s.pool, s.releaseRing, s`ramHeader, s`events, s`nthOom
    ensures s.Valid() && old(s.events) <= s.events
    ensures image.None? ==> Exited(s.events)
    ensures image.Some? ==> && image.value in s.pool.blocks && s.pool.blocks[image.value].rec.ImageRec?
                            && s.pool.blocks[image.value].rec.image.width == Width(rect)
                            && s.pool.blocks[image.value].rec.image.height == Height(rect)
                            && keep in s.pool.blocks && s.pool.blocks[keep] == old(s.pool.blocks[keep])
                            && keep !in s.inFlight
    ensures image.Some? && Counted(s.mapping, old(MemOf(s))) ==>
              RefsOk(s.mapping, s.pool.blocks, s.table, s.inFlight, multiset{image.value})
    ensures var hash := HashOf(s.rowHash, FbRows(s, rect));
            var hit := LookupImageInfo(old(s.table), old(s.pool.blocks), hash, Width(rect), Height(rect));
            && (hit.Some? ==> image == Some(old(s.table)[Bucket(hash)][hit.value].image))
            && (hit.None? && image.Some? ==>
                  Built(s.mapping, old(MemOf(s)), MemOf(s), image.value, s.bytesPerPixel, Width(rect), Height(rect),
                        FbRows(s, rect), hash, nodeAllocated))
    ensures image.Some? ==>
              ImageOfRows(s.mapping, s.pool.blocks, image.value, s.bytesPerPixel, Width(rect), Height(rect),
                          FbRows(s, rect), HashOf(s.rowHash, FbRows(s, rect)))
  {
    ghost var h0 := MemOf(s);
    ghost var rows := FbRows(s, rect);
    ghost var hash := HashOf(s.rowHash, rows);
    ghost var hit := LookupImageInfo(s.table, s.pool.blocks, hash, Width(rect), Height(rect));
    image := ImageCreate(s, s.fb, rect.left as nat, rect.top as nat, Width(rect), Height(rect), FbStride(s), nodeAllocated);
    if image.Some? && hit.None? {
      BuiltKeeps(s.mapping, h0, MemOf(s), image.value, s.bytesPerPixel, Width(rect), Height(rect), rows, hash,
                 nodeAllocated, keep);
      BuiltShowsRows(s.mapping, h0, MemOf(s), image.value, s.bytesPerPixel, Width(rect), Height(rect), rows, hash,
                     nodeAllocated);
    }
  }

  /** The drawable at `a` is the COPY drawable `submit_copy` builds over `rect`: the header of
      `make_drawable`, the source area moved to the origin, and as source a live image that
      shows `rows`, the rectangle's pixels, which hash to `hash`. */
  ghost predicate CopyDrawn(m: RamMapping, b: map<u64, Block>, a: u64, rect: Rect, mmTime: u32, bytesPerPixel: nat,
                            rows: seq<seq<u8>>, hash: u32)
  {
    && a in b && b[a].size == SIZEOF_DRAWABLE && b[a].rec.DrawableRec?
    && var dr := b[a].rec.drawable;
       && dr.body.Copy?
       && dr == NewDrawable(a, QXL_DRAW_COPY, rect, mmTime).(body := CopyBody(dr.body.srcBitmap, Translated(rect)))
       && ImageOfRows(m, b, m.Virt(dr.body.srcBitmap), bytesPerPixel, Width(rect), Height(rect), rows, hash)
  }

  /** Writing the copy arm naming `image` into a new COPY drawable yields the drawable
      `submit_copy` promises. */
  lemma CopyWritten(m: RamMapping, b: map<u64, Block>, a: u64, image: u64, rect: Rect, mmTime: u32, area: Rect,
                    bytesPerPixel: nat, rows: seq<seq<u8>>, hash: u32)
    requires a in b && b[a] == Block(SIZEOF_DRAWABLE, DrawableRec(NewDrawable(a, QXL_DRAW_COPY, rect, mmTime)))
    requires ImageOfRows(m, b, image, bytesPerPixel, Width(rect), Height(rect), rows, hash)
    requires area == Translated(rect)
    ensures CopyDrawn(m, b[a := Block(SIZEOF_DRAWABLE, DrawableRec(b[a].rec.drawable.(body := CopyBody(m.Phys(image), area))))],
                      a, rect, mmTime, bytesPerPixel, rows, hash)
  {
    VirtOfPhys(m, image);
    ImageOfRowsFrame(m, b, a, Block(SIZEOF_DRAWABLE, DrawableRec(b[a].rec.drawable.(body := CopyBody(m.Phys(image), area)))),
                     image, bytesPerPixel, Width(rect), Height(rect), rows, hash);
  }

  /** The copy arm naming `image` written into the COPY drawable `a`, which is then pushed; the
      reference to `image` the caller holds passes to the drawable. */
  method WriteCopy(s: Screen, a: u64, rect: Rect, image: u64, ghost rows: seq<seq<u8>>, ghost hash: u32)
    requires s.Valid() && !s.commandRing.IsFull()
    requires a in s.pool.blocks && a !in s.inFlight
    requires s.pool.blocks[a] == Block(SIZEOF_DRAWABLE, DrawableRec(NewDrawable(a, QXL_DRAW_COPY, rect, s.rom.mmClock)))
    requires ImageOfRows(s.mapping, s.pool.blocks, image, s.bytesPerPixel, Width(rect), Height(rect), rows, hash)
    modifies s.pool, s.commandRing, s`inFlight
    ensures s.Valid()
    ensures CopyDrawn(s.mapping, s.pool.blocks, a, rect, s.rom.mmClock, s.bytesPerPixel, rows, hash)
    ensures s.rom.mode != MODE_VGA ==>
              s.commandRing.items == old(s.commandRing.items) + [Command(s.mapping.Phys(a), QXL_CMD_DRAW)]
    ensures s.rom.mode == MODE_VGA ==> s.commandRing.items == old(s.commandRing.items)
    ensures a in s.inFlight <==> s.rom.mode != MODE_VGA
    ensures RefsOk(s.mapping, old(s.pool.blocks), old(s.table), old(s.inFlight), multiset{image}) ==> Counted(s.mapping, MemOf(s))
  {
    var area := TranslateRect(rect);
    ghost var written := Block(SIZEOF_DRAWABLE, DrawableRec(s.pool.blocks[a].rec.drawable.(body := CopyBody(s.mapping.Phys(image), area))));
    CopyWritten(s.mapping, s.pool.blocks, a, image, rect, s.rom.mmClock, area, s.bytesPerPixel, rows, hash);
    ghost var h2 := MemOf(s);
    FinishDrawable(s, a, CopyBody(s.mapping.Phys(image), area));
    assert s.pool.blocks == h2.blocks[a := written];
    VirtOfPhys(s.mapping, image);
    NamedDrawableCounted(s.mapping, h2, MemOf(s), a, image);
  }

  /** The rest of `submit_copy` once its drawable `a` is allocated: the source image, the copy
      arm, and the push. */
  method CopyDrawable(s: Screen, a: u64, rect: Rect, nodeAllocated: bool) returns (ok: bool)
    requires s.Valid() && !s.commandRing.IsFull() && InFramebuffer(s, rect)
    requires a in s.pool.blocks && a !in s.inFlight
    requires s.pool.blocks[a] == Block(SIZEOF_DRAWABLE, DrawableRec(NewDrawable(a, QXL_DRAW_COPY, rect, s.rom.mmClock)))
    modifies s`table, s`inFlight, s`protocolError, s.pool, s.releaseRing, s`ramHeader, s`events, s`nthOom
    modifies s.commandRing
    ensures s.Valid() && old(s.events) <= s.events
    ensures !ok ==> Exited(s.events)
    ensures ok ==> CopyDrawn(s.mapping, s.pool.blocks, a, rect, s.rom.mmClock, s.bytesPerPixel,
                             FbRows(s, rect), HashOf(s.rowHash, FbRows(s, rect)))
    ensures ok && s.rom.mode != MODE_VGA ==>
              s.commandRing.items == old(s.commandRing.items) + [Command(s.mapping.Phys(a), QXL_CMD_DRAW)]
    ensures ok && s.rom.mode == MODE_VGA ==> s.commandRing.items == old(s.commandRing.items)
    ensures ok ==> (a in s.inFlight <==> s.rom.mode != MODE_VGA)
    ensures ok && Counted(s.mapping, old(MemOf(s))) ==> Counted(s.mapping, MemOf(s))
  {
    var image := CopySource(s, rect, nodeAllocated, a);
    if image.None? {
      return false;
    }
    WriteCopy(s, a, rect, image.value, FbRows(s, rect), HashOf(s.rowHash, FbRows(s, rect)));
    ok := true;
  }

  /** `submit_copy`: nothing for an empty rectangle; otherwise a COPY drawable over `rect` whose
      source is the image of `rect` in the shadow framebuffer, with the source area moved to the
      origin, pushed to the device. */
  method SubmitCopy(s: Screen, rect: Rect, nodeAllocated: bool) returns (d: Option<u64>)
    requires s.Valid() && !s.commandRing.IsFull()
    requires !EmptyRect(rect) ==> InFramebuffer(s, rect)
    modifies s`table, s`inFlight, s`protocolError, s.pool, s.releaseRing, s`ramHeader, s`events, s`nthOom
    modifies s.commandRing
    ensures s.Valid() && old(s.events) <= s.events
    ensures EmptyRect(rect) ==> && d.None? && s.events == old(s.events) && MemOf(s) == old(MemOf(s))
                                && s.commandRing.items == old(s.commandRing.items)
    ensures !EmptyRect(rect) && d.None? ==> Exited(s.events)
    ensures d.Some? ==> CopyDrawn(s.mapping, s.pool.blocks, d.value, rect, s.rom.mmClock, s.bytesPerPixel,
                                  FbRows(s, rect), HashOf(s.rowHash, FbRows(s, rect)))
    ensures d.Some? && s.rom.mode != MODE_VGA ==>
              s.commandRing.items == old(s.commandRing.items) + [Command(s.mapping.Phys(d.value), QXL_CMD_DRAW)]
    ensures d.Some? && s.rom.mode == MODE_VGA ==> s.commandRing.items == old(s.commandRing.items)
    ensures d.Some? ==> (d.value in s.inFlight <==> s.rom.mode != MODE_VGA)
    ensures d.Some? && Counted(s.mapping, old(MemOf(s))) ==> Counted(s.mapping, MemOf(s))
  {
    if EmptyRect(rect) {
      return None;
    }
    ghost var e0 := s.events;
    d := MakeDrawable(s, QXL_DRAW_COPY, rect);
    if d.None? {
      return;
    }
    ghost var e1 := s.events;
    var ok := CopyDrawable(s, d.value, rect, nodeAllocated);
    PrefixTrans(e0, e1, s.events);
    if !ok {
      d := None;
    }
  }

  /** A FILL drawable the device hands back, its release cell rewritten to the `next` id of the
      batch, is released under the id `make_drawable` gave it: the collector frees that drawable
      alone and goes on with `next`. */
  lemma FillReleased(m: RamMapping, h: Mem, a: u64, rect: Rect, color: u32, mmTime: u32, next: u64)
    requires |h.table| == HASH_SIZE && Aligned(a) && a in h.inFlight && a in h.blocks
    requires var d := NewDrawable(a, QXL_DRAW_FILL, rect, mmTime);
             h.blocks[a].rec == DrawableRec(d.(body := FillBody(color), releaseInfo := ReleaseInfo(next)))
    ensures Release(m, h, NewDrawable(a, QXL_DRAW_FILL, rect, mmTime).releaseInfo.Id())
            == Some((h.(blocks := h.blocks - {a}, inFlight := h.inFlight - {a}), next))
  {
    DrawableIdDecodes(a);
  }

  /** `(bitsPerPixel + 7) / 8`: the bytes a pixel of `bits` bits takes, rounded up. */
  function BytesPerPixel(bits: nat): (n: nat)
    ensures n * 8 >= bits && (n > 0 ==> (n - 1) * 8 < bits)
  {
    (bits + 7) / 8
  }

  /** The reset of `compat_qxl_switch_mode`: the device is reset and set to mode `m`, the pixel
      size follows the screen's depth, and, the pool existing, every block is freed and the image
      cache emptied; the reset device holds no record any more. */
  method SwitchMode(s: Screen, m: Mode) returns (ok: bool)
    requires s.Valid()
    modifies s`events, s`bytesPerPixel, s.pool, s`table, s`inFlight
    ensures s.Valid() && ok
    ensures s.events == old(s.events) + [Outb(s.ioBase + QXL_IO_RESET, 0), Outb(s.ioBase + QXL_IO_SET_MODE, m.id)]
    ensures s.bytesPerPixel == BytesPerPixel(s.bitsPerPixel)
    ensures s.pool.blocks == map[] && s.inFlight == {}
    ensures forall b :: 0 <= b < HASH_SIZE ==> s.table[b] == []
    ensures Counted(s.mapping, MemOf(s))
  {
    s.events := s.events + [Outb(s.ioBase + QXL_IO_RESET, 0)];
    s.events := s.events + [Outb(s.ioBase + QXL_IO_SET_MODE, m.id as int)];
    s.bytesPerPixel := BytesPerPixel(s.bitsPerPixel);
    s.pool.FreeAll();
    s.inFlight := {};
    DropImageCache(s);
    s.ValidFromHeap();
    RefsOkEmpty(s.mapping, s.table, s.inFlight);
    ok := true;
  }

}
