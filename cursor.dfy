/** The cursor commands of src/compat/compat-qxl_cursor.c: `push_cursor`,
    `compat_qxl_alloc_cursor_cmd`, `compat_qxl_set_cursor_position`,
    `compat_qxl_load_cursor_argb`, `compat_qxl_hide_cursor`, `compat_qxl_show_cursor` and the
    two `use_hw_cursor` answers.  The screen's `cur_x`, `cur_y`, `hot_x` and `hot_y` are the
    cursor's position and hotspot; every command goes through the cursor ring. */
module CursorCommands {
  import opened Protocol
  import opened Rings
  import opened Memory
  import opened ImageTable
  import opened QxlScreen
  import opened Collector

  /** The cursor command `compat_qxl_alloc_cursor_cmd` writes at `a`: its address with the low
      bit set as release id; the fields it leaves unwritten are 0. */
  function NewCursorCmd(a: u64): (c: CursorCmd)
    ensures Aligned(a) ==> ReleaseTag(c.releaseInfo.Id()) == 1 && ReleaseRecord(c.releaseInfo.Id()) == a
    ensures c.cmdType == 0 && c.shape == 0
  {
    CursorCmd(ReleaseInfo(CursorReleaseId(PointerToU64(a))), 0, Point16(0, 0), 0, 0)
  }

  /** The position a command reports: the cursor position plus the hotspot, stored in 16 bits. */
  function Position(curX: i16, curY: i16, hotX: i16, hotY: i16): (p: Point16)
    ensures (p.x - (curX + hotX)) % 0x1_0000 == 0 && (p.y - (curY + hotY)) % 0x1_0000 == 0
    ensures -0x8000 <= curX + hotX < 0x8000 ==> p.x == curX + hotX
    ensures -0x8000 <= curY + hotY < 0x8000 ==> p.y == curY + hotY
  {
    Point16(ToInt16(curX + hotX), ToInt16(curY + hotY))
  }

  /** The bytes of a `w` by `h` ARGB cursor image, `w * h * sizeof (CARD32)`. */
  function CursorBytes(w: u16, h: u16): (n: nat)
    ensures w <= 64 && h <= 64 ==> n <= 0x4000
  {
    var pixels := w as nat * h as nat;
    assert w <= 64 && h <= 64 ==> pixels <= 64 * 64 by {
      if w <= 64 && h <= 64 {
        MulBound(w as nat, h as nat, 64);
      }
    }
    pixels * 4
  }

  lemma MulBound(a: nat, b: nat, k: nat)
    requires a <= k && b <= k
    ensures a * b <= k * k
  {
    assert a * b <= a * k;
    assert a * k <= k * k;
  }

  /** The cursor shape `compat_qxl_load_cursor_argb` writes: an alpha cursor of `w` by `h` with
      hotspot (`xhot`, `yhot`) and one chunk holding the `size` bytes of the image. */
  function NewCursor(w: u16, h: u16, xhot: u16, yhot: u16, image: seq<u8>): (c: Cursor)
    requires |image| == CursorBytes(w, h) && |image| < 0x1_0000_0000
    ensures c.dataSize as int == |c.chunk.data| && c.chunk.dataSize as int == |c.chunk.data|
    ensures c.chunk.prevChunk == 0 && c.chunk.nextChunk == 0
  {
    Cursor(CursorHeader(0, CURSOR_TYPE_ALPHA, w, h, xhot, yhot), |image| as u32,
           DataChunk(|image| as u32, 0, 0, image))
  }

  /** `push_cursor`: unless the device has fallen back to VGA mode, the physical address of the
      command goes onto the cursor ring as a CURSOR command, and the device then holds it. */
  method PushCursor(s: Screen, a: u64)
    requires s.Valid() && a in s.pool.blocks && s.pool.blocks[a].rec.CursorCmdRec?
    requires !s.cursorRing.IsFull()
    modifies s.cursorRing, s`inFlight
    ensures s.Valid()
    ensures s.rom.mode != MODE_VGA ==> && s.cursorRing.items == old(s.cursorRing.items) + [Command(s.mapping.Phys(a), QXL_CMD_CURSOR)]
                                       && s.inFlight == old(s.inFlight) + {a}
    ensures s.rom.mode == MODE_VGA ==> s.cursorRing.items == old(s.cursorRing.items) && s.inFlight == old(s.inFlight)
  {
    if s.rom.mode != MODE_VGA {
      var cmd := Command(s.mapping.Phys(a), QXL_CMD_CURSOR);
      s.cursorRing.Push(cmd);
      s.inFlight := s.inFlight + {a};
    }
  }

  /** `compat_qxl_alloc_cursor_cmd`: a new cursor command allocated with `compat_qxl_allocnf`,
      whose release id carries the cursor tag; `None` when the driver ended for want of memory. */
  method AllocCursorCmd(s: Screen) returns (c: Option<u64>)
    requires s.Valid()
    modifies s`table, s`inFlight, s`protocolError, s.pool, s.releaseRing, s`ramHeader, s`events, s`nthOom
    ensures s.Valid() && old(s.events) <= s.events
    ensures c.None? ==> Exited(s.events)
    ensures c.Some? ==> && c.value in s.pool.blocks && c.value !in s.inFlight
                        && s.pool.blocks[c.value] == Block(SIZEOF_CURSOR_CMD, CursorCmdRec(NewCursorCmd(c.value)))
                        && ReleaseTag(NewCursorCmd(c.value).releaseInfo.Id()) == 1
                        && ReleaseRecord(NewCursorCmd(c.value).releaseInfo.Id()) == c.value
                        && Collected(s.mapping, old(MemOf(s)), MemOf(s).(blocks := s.pool.blocks - {c.value}))
    ensures c.Some? && Counted(s.mapping, old(MemOf(s))) ==> Counted(s.mapping, MemOf(s))
  {
    c := AllocBlock(s, SIZEOF_CURSOR_CMD);
    if c.None? {
      return;
    }
    ghost var b1 := s.pool.blocks;
    StorePlain(s, c.value, CursorCmdRec(NewCursorCmd(c.value)));
    CursorIdDecodes(c.value);
    WriteThenDrop(b1, c.value, s.pool.blocks[c.value]);
    AddedBlockCounted(s.mapping, MemOf(s), c.value);
  }

  /** Fills in a new cursor command and pushes it to the device. */
  method FinishCursorCmd(s: Screen, a: u64, cmd: CursorCmd)
    requires s.Valid() && a in s.pool.blocks && s.pool.blocks[a].rec.CursorCmdRec? && a !in s.inFlight
    requires !s.cursorRing.IsFull()
    modifies s.pool, s.cursorRing, s`inFlight
    ensures s.Valid()
    ensures s.pool.blocks == old(s.pool.blocks)[a := Block(old(s.pool.blocks)[a].size, CursorCmdRec(cmd))]
    ensures s.rom.mode != MODE_VGA ==> && s.cursorRing.items == old(s.cursorRing.items) + [Command(s.mapping.Phys(a), QXL_CMD_CURSOR)]
                                       && s.inFlight == old(s.inFlight) + {a}
    ensures s.rom.mode == MODE_VGA ==> s.cursorRing.items == old(s.cursorRing.items) && s.inFlight == old(s.inFlight)
    ensures Counted(s.mapping, old(MemOf(s))) ==> Counted(s.mapping, MemOf(s))
  {
    StorePlain(s, a, CursorCmdRec(cmd));
    PushCursor(s, a);
    WrittenBlockCounted(s.mapping, old(MemOf(s)), MemOf(s), a);
  }

  /** `compat_qxl_set_cursor_position`: the cursor moves to (`x`, `y`), stored in 16 bits, and a
      MOVE command reports the new position plus the hotspot. */
  method SetCursorPosition(s: Screen, x: int, y: int) returns (c: Option<u64>)
    requires s.Valid() && !s.cursorRing.IsFull()
    modifies s`table, s`inFlight, s`protocolError, s.pool, s.releaseRing, s`ramHeader, s`events, s`nthOom
    modifies s`curX, s`curY, s.cursorRing
    ensures s.Valid() && old(s.events) <= s.events
    ensures c.None? ==> Exited(s.events)
    ensures c.Some? ==>
              && s.curX == ToInt16(x) && s.curY == ToInt16(y)
              && c.value in s.pool.blocks
              && s.pool.blocks[c.value].rec ==
                 CursorCmdRec(NewCursorCmd(c.value).(cmdType := QXL_CURSOR_MOVE,
                                                     position := Position(s.curX, s.curY, s.hotX, s.hotY)))
              && (s.rom.mode != MODE_VGA ==> s.cursorRing.items == old(s.cursorRing.items) + [Command(s.mapping.Phys(c.value), QXL_CMD_CURSOR)])
              && (s.rom.mode == MODE_VGA ==> s.cursorRing.items == old(s.cursorRing.items))
    ensures c.Some? && Counted(s.mapping, old(MemOf(s))) ==> Counted(s.mapping, MemOf(s))
  {
    c := AllocCursorCmd(s);
    if c.None? {
      return;
    }
    s.curX := ToInt16(x);
    s.curY := ToInt16(y);
    var cmd := NewCursorCmd(c.value).(cmdType := QXL_CURSOR_MOVE, position := Position(s.curX, s.curY, s.hotX, s.hotY));
    FinishCursorCmd(s, c.value, cmd);
  }

  /** `compat_qxl_show_cursor`: a MOVE to where the cursor already is. */
  method ShowCursor(s: Screen) returns (c: Option<u64>)
    requires s.Valid() && !s.cursorRing.IsFull()
    modifies s`table, s`inFlight, s`protocolError, s.pool, s.releaseRing, s`ramHeader, s`events, s`nthOom
    modifies s`curX, s`curY, s.cursorRing
    ensures s.Valid() && old(s.events) <= s.events
    ensures c.None? ==> Exited(s.events)
    ensures c.Some? ==>
              && s.curX == old(s.curX) && s.curY == old(s.curY)
              && c.value in s.pool.blocks
              && s.pool.blocks[c.value].rec ==
                 CursorCmdRec(NewCursorCmd(c.value).(cmdType := QXL_CURSOR_MOVE,
                                                     position := Position(s.curX, s.curY, s.hotX, s.hotY)))
              && (s.rom.mode != MODE_VGA ==> s.cursorRing.items == old(s.cursorRing.items) + [Command(s.mapping.Phys(c.value), QXL_CMD_CURSOR)])
              && (s.rom.mode == MODE_VGA ==> s.cursorRing.items == old(s.cursorRing.items))
    ensures c.Some? && Counted(s.mapping, old(MemOf(s))) ==> Counted(s.mapping, MemOf(s))
  {
    c := SetCursorPosition(s, s.curX as int, s.curY as int);
  }

  /** `compat_qxl_hide_cursor`: one HIDE command; position and hotspot stay. */
  method HideCursor(s: Screen) returns (c: Option<u64>)
    requires s.Valid() && !s.cursorRing.IsFull()
    modifies s`table, s`inFlight, s`protocolError, s.pool, s.releaseRing, s`ramHeader, s`events, s`nthOom
    modifies s.cursorRing
    ensures s.Valid() && old(s.events) <= s.events
    ensures c.None? ==> Exited(s.events)
    ensures c.Some? ==>
              && c.value in s.pool.blocks
              && s.pool.blocks[c.value].rec == CursorCmdRec(NewCursorCmd(c.value).(cmdType := QXL_CURSOR_HIDE))
              && (s.rom.mode != MODE_VGA ==> s.cursorRing.items == old(s.cursorRing.items) + [Command(s.mapping.Phys(c.value), QXL_CMD_CURSOR)])
              && (s.rom.mode == MODE_VGA ==> s.cursorRing.items == old(s.cursorRing.items))
    ensures c.Some? && Counted(s.mapping, old(MemOf(s))) ==> Counted(s.mapping, MemOf(s))
  {
    c := AllocCursorCmd(s);
    if c.None? {
      return;
    }
    FinishCursorCmd(s, c.value, NewCursorCmd(c.value).(cmdType := QXL_CURSOR_HIDE));
  }

  /** The shape of `compat_qxl_load_cursor_argb`, allocated after its command `keep`, which stays
      as it was. */
  method MakeCursorShape(s: Screen, w: u16, h: u16, xhot: u16, yhot: u16, argb: seq<u8>, ghost keep: u64)
    returns (shape: Option<u64>)
    requires s.Valid() && w <= 64 && h <= 64 && |argb| >= CursorBytes(w, h)
    requires Kept(s.pool.blocks, s.inFlight, s.mapping, keep)
    modifies s`table, s`inFlight, s`protocolError, s.pool, s.releaseRing, s`ramHeader, s`events, s`nthOom
    ensures s.Valid() && old(s.events) <= s.events
    ensures shape.None? ==> Exited(s.events)
    ensures shape.Some? ==>
              && shape.value in s.pool.blocks && shape.value != keep
              && s.pool.blocks[shape.value] == Block(SIZEOF_CURSOR + CursorBytes(w, h),
                                                     CursorRec(NewCursor(w, h, xhot, yhot, argb[..CursorBytes(w, h)])))
              && keep in s.pool.blocks && s.pool.blocks[keep] == old(s.pool.blocks[keep]) && keep !in s.inFlight
    ensures shape.Some? && Counted(s.mapping, old(MemOf(s))) ==> Counted(s.mapping, MemOf(s))
  {
    ghost var h0 := MemOf(s);
    var size := CursorBytes(w, h);
    shape := AllocBlock(s, SIZEOF_CURSOR + size);
    if shape.None? {
      return;
    }
    ghost var h1 := MemOf(s);
    KeptSurvives(s.mapping, h0.blocks, h0.inFlight, h0.table, h1.blocks - {shape.value}, h1.inFlight, h1.table, keep);
    assert shape.value !in s.inFlight;
    StorePlain(s, shape.value, CursorRec(NewCursor(w, h, xhot, yhot, argb[..size])));
    WriteThenDrop(h1.blocks, shape.value, s.pool.blocks[shape.value]);
    AddedBlockCounted(s.mapping, MemOf(s), shape.value);
  }

  /** The command at `a` is the SET command `compat_qxl_load_cursor_argb` builds: visible, at
      `pos`, naming a live shape that holds the `w` by `h` ARGB image with its hotspot. */
  ghost predicate SetDrawn(m: RamMapping, b: map<u64, Block>, a: u64, pos: Point16,
                           w: u16, h: u16, xhot: u16, yhot: u16, argb: seq<u8>)
    requires |argb| >= CursorBytes(w, h) && w <= 64 && h <= 64
  {
    && a in b && b[a].rec.CursorCmdRec?
    && var cmd := b[a].rec.cmd;
       var shape := m.Virt(cmd.shape);
       && cmd == NewCursorCmd(a).(cmdType := QXL_CURSOR_SET, position := pos, visible := 1, shape := cmd.shape)
       && shape in b && shape != a
       && b[shape].rec == CursorRec(NewCursor(w, h, xhot, yhot, argb[..CursorBytes(w, h)]))
  }

  /** The rest of `compat_qxl_load_cursor_argb` once its command `a` is allocated: the shape, the
      new hotspot, the SET command, and the push. */
  method LoadShape(s: Screen, a: u64, w: u16, h: u16, xhot: u16, yhot: u16, argb: seq<u8>) returns (ok: bool)
    requires s.Valid() && !s.cursorRing.IsFull() && w <= 64 && h <= 64 && |argb| >= CursorBytes(w, h)
    requires a in s.pool.blocks && a !in s.inFlight && s.pool.blocks[a] == Block(SIZEOF_CURSOR_CMD, CursorCmdRec(NewCursorCmd(a)))
    modifies s`table, s`inFlight, s`protocolError, s.pool, s.releaseRing, s`ramHeader, s`events, s`nthOom
    modifies s`hotX, s`hotY, s.cursorRing
    ensures s.Valid() && old(s.events) <= s.events
    ensures !ok ==> Exited(s.events)
    ensures ok ==>
              && s.hotX == ToInt16(xhot) && s.hotY == ToInt16(yhot)
              && SetDrawn(s.mapping, s.pool.blocks, a, Position(s.curX, s.curY, s.hotX, s.hotY), w, h, xhot, yhot, argb)
              && (s.rom.mode != MODE_VGA ==> s.cursorRing.items == old(s.cursorRing.items) + [Command(s.mapping.Phys(a), QXL_CMD_CURSOR)])
              && (s.rom.mode == MODE_VGA ==> s.cursorRing.items == old(s.cursorRing.items))
    ensures ok && Counted(s.mapping, old(MemOf(s))) ==> Counted(s.mapping, MemOf(s))
  {
    var shape := MakeCursorShape(s, w, h, xhot, yhot, argb, a);
    if shape.None? {
      return false;
    }
    s.hotX := ToInt16(xhot);
    s.hotY := ToInt16(yhot);
    var cmd := NewCursorCmd(a).(cmdType := QXL_CURSOR_SET, position := Position(s.curX, s.curY, s.hotX, s.hotY),
                                visible := 1, shape := s.mapping.Phys(shape.value));
    VirtOfPhys(s.mapping, shape.value);
    FinishCursorCmd(s, a, cmd);
    ok := true;
  }

  /** `compat_qxl_load_cursor_argb`: a new `w` by `h` shape holding the ARGB image, the hotspot
      taken from it, and a SET command naming the shape, visible, at the position plus the new
      hotspot.  The X server asks for at most 64 by 64 (`compat_qxl_cursor_init`). */
  method LoadCursorArgb(s: Screen, w: u16, h: u16, xhot: u16, yhot: u16, argb: seq<u8>) returns (c: Option<u64>)
    requires s.Valid() && !s.cursorRing.IsFull() && w <= 64 && h <= 64 && |argb| >= CursorBytes(w, h)
    modifies s`table, s`inFlight, s`protocolError, s.pool, s.releaseRing, s`ramHeader, s`events, s`nthOom
    modifies s`hotX, s`hotY, s.cursorRing
    ensures s.Valid() && old(s.events) <= s.events
    ensures c.None? ==> Exited(s.events)
    ensures c.Some? ==>
              && s.hotX == ToInt16(xhot) && s.hotY == ToInt16(yhot)
              && SetDrawn(s.mapping, s.pool.blocks, c.value, Position(s.curX, s.curY, s.hotX, s.hotY), w, h, xhot, yhot, argb)
              && (s.rom.mode != MODE_VGA ==> s.cursorRing.items == old(s.cursorRing.items) + [Command(s.mapping.Phys(c.value), QXL_CMD_CURSOR)])
              && (s.rom.mode == MODE_VGA ==> s.cursorRing.items == old(s.cursorRing.items))
    ensures c.Some? && Counted(s.mapping, old(MemOf(s))) ==> Counted(s.mapping, MemOf(s))
  {
    ghost var e0 := s.events;
    c := AllocCursorCmd(s);
    if c.None? {
      return;
    }
    ghost var e1 := s.events;
    var ok := LoadShape(s, c.value, w, h, xhot, yhot, argb);
    PrefixTrans(e0, e1, s.events);
    if !ok {
      c := None;
    }
  }

  /** `compat_qxl_use_hw_cursor`: bitmap cursors are drawn by the X server. */
  function UseHwCursor(): (r: bool)
    ensures !r
  {
    false
  }

  /** `compat_qxl_use_hw_cursorARGB`: ARGB cursors go to the device. */
  function UseHwCursorArgb(): (r: bool)
    ensures r
  {
    true
  }

  /** A SET command the device hands back, its release cell rewritten to the `next` id of the
      batch, is released under the id `compat_qxl_alloc_cursor_cmd` gave it: the collector frees
      the command and the shape it names, and goes on with `next`. */
  lemma CursorSetReleased(m: RamMapping, h: Mem, a: u64, cmd: CursorCmd, next: u64)
    requires |h.table| == HASH_SIZE && Aligned(a) && a in h.inFlight && a in h.blocks
    requires cmd.cmdType == QXL_CURSOR_SET && m.Virt(cmd.shape) in h.blocks && h.blocks[m.Virt(cmd.shape)].rec.CursorRec?
    requires h.blocks[a].rec == CursorCmdRec(cmd.(releaseInfo := ReleaseInfo(next)))
    ensures Release(m, h, NewCursorCmd(a).releaseInfo.Id())
            == Some((h.(blocks := h.blocks - {m.Virt(cmd.shape)} - {a}, inFlight := h.inFlight - {a}), next))
  {
    CursorIdDecodes(a);
  }

  /** A MOVE or HIDE command handed back is released under its id: the collector frees the
      command alone. */
  lemma CursorMoveReleased(m: RamMapping, h: Mem, a: u64, cmd: CursorCmd, next: u64)
    requires |h.table| == HASH_SIZE && Aligned(a) && a in h.inFlight && a in h.blocks
    requires cmd.cmdType == QXL_CURSOR_MOVE || cmd.cmdType == QXL_CURSOR_HIDE
    requires h.blocks[a].rec == CursorCmdRec(cmd.(releaseInfo := ReleaseInfo(next)))
    ensures Release(m, h, NewCursorCmd(a).releaseInfo.Id())
            == Some((h.(blocks := h.blocks - {a}, inFlight := h.inFlight - {a}), next))
  {
    CursorIdDecodes(a);
  }
}
