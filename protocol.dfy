/** The packed protocol records shared with the QXL device, the address translation between the
    driver's mapping of device RAM and the device's physical view of it, and the tagged release
    identifiers (src/compat/compat-qxl.h). */
module Protocol {

  /* Fixed-width integers of the protocol.  Every value is a mathematical integer restricted to
     the width of its C type; wrap-around is written out where the source relies on it. */
  type u8 = x: int | 0 <= x < 0x100
  type u16 = x: int | 0 <= x < 0x1_0000
  type u32 = x: int | 0 <= x < 0x1_0000_0000
  type u64 = x: int | 0 <= x < 0x1_0000_0000_0000_0000
  type i16 = x: int | -0x8000 <= x < 0x8000
  type i32 = x: int | -0x8000_0000 <= x < 0x8000_0000

  /** `unsigned long` is 64 bits wide: address arithmetic is modulo this. */
  const WORD: int := 0x1_0000_0000_0000_0000

  datatype Option<T> = None | Some(value: T)

  // I/O port offsets, added to io_base
  const QXL_IO_NOTIFY_CMD: int := 0
  const QXL_IO_NOTIFY_CURSOR: int := 1
  const QXL_IO_UPDATE_AREA: int := 2
  const QXL_IO_UPDATE_IRQ: int := 3
  const QXL_IO_NOTIFY_OOM: int := 4
  const QXL_IO_RESET: int := 5
  const QXL_IO_SET_MODE: int := 6
  const QXL_IO_LOG: int := 7

  /** One entry of the ROM's mode list. */
  datatype Mode = Mode(id: u32, xRes: u32, yRes: u32, bits: u32, stride: u32,
                       xMili: u32, yMili: u32, orientation: u32)

  // command types
  const QXL_CMD_NOP: u32 := 0
  const QXL_CMD_DRAW: u32 := 1
  const QXL_CMD_UPDATE: u32 := 2
  const QXL_CMD_CURSOR: u32 := 3
  const QXL_CMD_MESSAGE: u32 := 4

  /** A ring slot: the physical address of a record and its command type (the pad is not modelled). */
  datatype Command = Command(data: u64, cmdType: u32)

  datatype Rect = Rect(top: u32, left: u32, bottom: u32, right: u32)

  /** `union compat_qxl_release_info`: the id the driver writes and the `next` link the device
      writes back occupy one and the same 64-bit cell. */
  datatype ReleaseInfo = ReleaseInfo(cell: u64)
  {
    function Id(): u64 { cell }
    function Next(): u64 { cell }
  }

  datatype Point = Point(x: i32, y: i32)
  datatype Point16 = Point16(x: i16, y: i16)

  // brush types
  const QXL_BRUSH_TYPE_NONE: u32 := 0
  const QXL_BRUSH_TYPE_SOLID: u32 := 1
  const QXL_BRUSH_TYPE_PATTERN: u32 := 2

  /** A solid brush; the pattern arm of the brush union is never used by the driver. */
  datatype Brush = Brush(brushType: u32, color: u32)
  datatype Mask = Mask(flags: u8, pos: Point, bitmap: u64)

  // image types and flags
  const QXL_IMAGE_TYPE_BITMAP: u8 := 0
  const QXL_IMAGE_CACHE: u8 := 1

  // bitmap formats and flags
  const QXL_BITMAP_FMT_16BIT: u8 := 6
  const QXL_BITMAP_FMT_32BIT: u8 := 8
  const QXL_BITMAP_TOP_DOWN: u8 := 4

  datatype Bitmap = Bitmap(format: u8, flags: u8, x: u32, y: u32, stride: u32, palette: u64, data: u64)

  /** `compat_qxl_image`: its descriptor (id, type, flags, width, height) and its bitmap. */
  datatype Image = Image(id: u64, imageType: u8, flags: u8, width: u32, height: u32, bitmap: Bitmap)

  /** `compat_qxl_data_chunk` with its trailing pixel bytes. */
  datatype DataChunk = DataChunk(dataSize: u32, prevChunk: u64, nextChunk: u64, data: seq<u8>)

  // effects, clip types and draw types
  const QXL_EFFECT_OPAQUE: u8 := 1
  const QXL_CLIP_TYPE_NONE: u32 := 0
  const QXL_DRAW_FILL: u8 := 1
  const QXL_DRAW_COPY: u8 := 3

  /** The arms of the drawable's union that the driver fills in; `NoBody` is a drawable whose
      union has not been written yet. */
  datatype DrawBody =
    | NoBody
    | Fill(brush: Brush, ropDescriptor: u16, mask: Mask)
    | Copy(srcBitmap: u64, srcArea: Rect, ropDescriptor: u16, scaleMode: u8, mask: Mask)

  datatype Drawable = Drawable(releaseInfo: ReleaseInfo, effect: u8, drawType: u8, bitmapOffset: u16,
                               bitmapArea: Rect, bbox: Rect, clipType: u32, mmTime: u32, body: DrawBody)

  // cursor command types and cursor image types
  const QXL_CURSOR_SET: u8 := 0
  const QXL_CURSOR_MOVE: u8 := 1
  const QXL_CURSOR_HIDE: u8 := 2
  const QXL_CURSOR_TRAIL: u8 := 3
  const CURSOR_TYPE_ALPHA: u16 := 0

  datatype CursorHeader = CursorHeader(unique: u64, cursorType: u16, width: u16, height: u16,
                                       hotSpotX: u16, hotSpotY: u16)
  datatype Cursor = Cursor(header: CursorHeader, dataSize: u32, chunk: DataChunk)

  /** `compat_qxl_cursor_cmd`.  `u.position` and `u.set.position` are the same bytes of the union,
      so one `position` field stands for both; `visible` and `shape` are the rest of `u.set`. */
  datatype CursorCmd = CursorCmd(releaseInfo: ReleaseInfo, cmdType: u8, position: Point16,
                                 visible: u8, shape: u64)

  /** The ROM the device exposes. */
  datatype Rom = Rom(magic: u32, id: u32, updateId: u32, compressionLevel: u32, logLevel: u32,
                     mode: u32, modesOffset: u32, numIoPages: u32, pagesOffset: u32,
                     drawAreaOffset: u32, drawAreaSize: u32, ramHeaderOffset: u32, mmClock: u32)

  /** Slot counts of the three rings laid out in the RAM header. */
  const CMD_RING_SIZE: nat := 32
  const CURSOR_RING_SIZE: nat := 32
  const RELEASE_RING_SIZE: nat := 8

  /** The RAM header apart from its log buffer and ring storage; the rings themselves are
      modelled by `Rings.Ring` objects whose capacities are the slot counts above. */
  datatype RamHeader = RamHeader(magic: u32, intPending: u32, intMask: u32, updateArea: Rect)

  /** `rom->mode` when the device has fallen back to VGA: `~0` as a 32-bit value. */
  const MODE_VGA: u32 := 0xFFFF_FFFF

  /** What a block of device memory holds: one of the records above, or nothing yet (`Raw`). */
  datatype Record =
    | Raw
    | DrawableRec(drawable: Drawable)
    | CursorCmdRec(cmd: CursorCmd)
    | CursorRec(cursor: Cursor)
    | ImageRec(image: Image)
    | ChunkRec(chunk: DataChunk)

  // sizeof of the packed records, in bytes
  const SIZEOF_DRAWABLE: nat := 128
  const SIZEOF_CURSOR_CMD: nat := 150
  const SIZEOF_CURSOR: nat := 42
  const SIZEOF_IMAGE: nat := 48
  const SIZEOF_DATA_CHUNK: nat := 20

  /** The driver's mapping of device RAM (`ram`) and the device's own address of it (`ram_physical`). */
  datatype RamMapping = RamMapping(ram: u64, ramPhysical: u64)
  {
    /** `physical_address`: adds `ram_physical - ram`, wrapping modulo the word size. */
    function Phys(virt: u64): (p: u64)
      ensures (p - virt - (ramPhysical - ram)) % WORD == 0
    {
      (virt + (ramPhysical - ram) % WORD) % WORD
    }

    /** `virtual_address`: adds `ram - ram_physical`, wrapping modulo the word size. */
    function Virt(phys: u64): (v: u64)
      ensures (v - phys - (ram - ramPhysical)) % WORD == 0
    {
      (phys + (ram - ramPhysical) % WORD) % WORD
    }
  }

  /** The two offsets added by `Phys` and `Virt` sum to 0 or to the word size. */
  lemma OffsetsCancel(a: u64, b: u64)
    ensures (a - b) % WORD + (b - a) % WORD == 0 || (a - b) % WORD + (b - a) % WORD == WORD
  {
    if a == b {
    } else if a < b {
      assert (a - b) % WORD == a - b + WORD;
      assert (b - a) % WORD == b - a;
    } else {
      assert (a - b) % WORD == a - b;
      assert (b - a) % WORD == b - a + WORD;
    }
  }

  /** Adding two offsets that sum to 0 or WORD, each reduced modulo WORD, is the identity. */
  lemma AddOffsetsModWord(x: u64, d: int, e: int)
    requires 0 <= d < WORD && 0 <= e < WORD
    requires d + e == 0 || d + e == WORD
    ensures ((x + d) % WORD + e) % WORD == x
  {
    var y := (x + d) % WORD;
    if x + d < WORD {
      assert y == x + d;
      if d + e == 0 {
        assert y + e == x;
      } else {
        assert y + e == x + WORD;
        assert (x + WORD) % WORD == x;
      }
    } else {
      assert y == x + d - WORD;
      assert d + e == WORD;
      assert y + e == x;
    }
  }

  /** `virtual_address (physical_address (v)) == v`. */
  lemma VirtOfPhys(m: RamMapping, v: u64)
    ensures m.Virt(m.Phys(v)) == v
  {
    OffsetsCancel(m.ramPhysical, m.ram);
    AddOffsetsModWord(v, (m.ramPhysical - m.ram) % WORD, (m.ram - m.ramPhysical) % WORD);
  }

  /** `physical_address (virtual_address (p)) == p`. */
  lemma PhysOfVirt(m: RamMapping, p: u64)
    ensures m.Phys(m.Virt(p)) == p
  {
    OffsetsCancel(m.ram, m.ramPhysical);
    AddOffsetsModWord(p, (m.ram - m.ramPhysical) % WORD, (m.ramPhysical - m.ram) % WORD);
  }

  /** Physical addresses of distinct records are distinct. */
  lemma PhysInjective(m: RamMapping, a: u64, b: u64)
    requires m.Phys(a) == m.Phys(b)
    ensures a == b
  {
    VirtOfPhys(m, a);
    VirtOfPhys(m, b);
  }

  /** `pointer_to_u64` and `u64_to_pointer`: with a 64-bit `unsigned long` both casts keep the value. */
  function PointerToU64(p: u64): u64
  {
    p
  }

  function U64ToPointer(u: u64): u64
  {
    u
  }

  /** Casting a pointer to a 64-bit id and back gives the pointer, and the other way round. */
  lemma PointerRoundTrip(p: u64, u: u64)
    ensures U64ToPointer(PointerToU64(p)) == p && PointerToU64(U64ToPointer(u)) == u
  {
  }

  /* Release identifiers.  The driver assumes the two low bits of a record's address are free and
     uses them as a tag: 1 marks a cursor command, anything else a drawable.  For non-negative
     values `id & 3` is `id % 4`, `id & ~3` is `id - id % 4` and `p | 1` sets the low bit. */
  const POINTER_MASK: int := 3

  predicate Aligned(p: int) { p % 4 == 0 }

  /** `id & POINTER_MASK` */
  function ReleaseTag(id: u64): (t: nat)
    ensures t <= POINTER_MASK
  {
    id % 4
  }

  /** `id & ~POINTER_MASK`: the address of the record the id names. */
  function ReleaseRecord(id: u64): (r: u64)
    ensures Aligned(r) && r <= id < r + 4
  {
    id - id % 4
  }

  /** `pointer_to_u64 (cmd) | 1` */
  function CursorReleaseId(p: u64): (id: u64)
    ensures id % 2 == 1 && (id == p || id == p + 1)
  {
    if p % 2 == 0 then p + 1 else p
  }

  /** A cursor command's release id decodes to the cursor tag and back to the command's address. */
  lemma CursorIdDecodes(p: u64)
    requires Aligned(p)
    ensures ReleaseTag(CursorReleaseId(p)) == 1 && ReleaseRecord(CursorReleaseId(p)) == p
  {
    assert CursorReleaseId(p) == p + 1;
  }

  /** A drawable's untagged release id never decodes as a cursor, and names the drawable itself. */
  lemma DrawableIdDecodes(p: u64)
    requires Aligned(p)
    ensures ReleaseTag(PointerToU64(p)) == 0 && ReleaseRecord(PointerToU64(p)) == p
  {
  }

  /** C's `/` on `int`: the quotient truncated toward zero, so that the remainder `a - q * b` is
      smaller than the divisor in magnitude and, unless zero, has the sign of the dividend. */
  function CDiv(a: int, b: int): (q: int)
    requires b != 0
    ensures var rem := a - q * b;
            Abs(rem) < Abs(b) && (rem == 0 || (rem > 0 <==> a > 0))
  {
    if a >= 0 then (if b > 0 then a / b else -(a / -b))
    else if b > 0 then -(-a / b)
    else -a / -b
  }

  function Abs(v: int): nat
  {
    if v < 0 then -v else v
  }

  /** Storing into `int`: the value modulo 2^32, read back as two's complement. */
  function ToInt32(v: int): (r: i32)
    ensures (r - v) % 0x1_0000_0000 == 0
    ensures -0x8000_0000 <= v < 0x8000_0000 ==> r == v
  {
    (v + 0x8000_0000) % 0x1_0000_0000 - 0x8000_0000
  }

  /** Storing into `int16_t`: the value modulo 2^16, read back as two's complement. */
  function ToInt16(v: int): (r: i16)
    ensures (r - v) % 0x1_0000 == 0
    ensures -0x8000 <= v < 0x8000 ==> r == v
  {
    (v + 0x8000) % 0x1_0000 - 0x8000
  }

  /** Storing into `uint16_t`: the value modulo 2^16. */
  function ToU16(v: int): (r: u16)
    ensures (r - v) % 0x1_0000 == 0
    ensures 0 <= v < 0x1_0000 ==> r == v
  {
    v % 0x1_0000
  }

  /** Storing into `uint32_t`: the value modulo 2^32. */
  function ToU32(v: int): (r: u32)
    ensures (r - v) % 0x1_0000_0000 == 0
    ensures 0 <= v < 0x1_0000_0000 ==> r == v
  {
    v % 0x1_0000_0000
  }
}
