/** The mode arithmetic and the device check of src/compat/compat-qxl_driver.c:
    `compat_qxl_check_device`, `compat_qxl_find_native_mode`, `compat_qxl_valid_mode`, the
    timings `compat_qxl_add_mode` gives a mode, and the virtual-height clamp of
    `compat_qxl_pre_init`.  All of it is arithmetic on integers that are non-negative here, where
    C's `/` and Dafny's agree. */
module Modes {
  import opened Protocol

  /** "QXRO" and "QXRA" read as little-endian 32-bit words. */
  const ROM_MAGIC: u32 := 0x4f525851
  const RAM_MAGIC: u32 := 0x41525851

  /** The four bytes of a 32-bit word, least significant first. */
  function LittleEndian(v: u32): (b: seq<u8>)
    ensures |b| == 4
  {
    [v % 0x100, v / 0x100 % 0x100, v / 0x1_0000 % 0x100, v / 0x100_0000]
  }

  /** The two signatures spell the device's names in memory order. */
  lemma MagicsSpellNames()
    ensures LittleEndian(ROM_MAGIC) == ['Q' as u8, 'X' as u8, 'R' as u8, 'O' as u8]
    ensures LittleEndian(RAM_MAGIC) == ['Q' as u8, 'X' as u8, 'R' as u8, 'A' as u8]
  {
  }

  /** What `compat_qxl_check_device` records once both signatures are right: the draw area's
      offset and size, and the video RAM in KiB. */
  datatype DeviceInfo = DeviceInfo(drawAreaOffset: i32, drawAreaSize: i32, videoRam: i32)

  /** `compat_qxl_check_device`: the ROM signature, then the signature of the RAM header the ROM
      points to; `None` when either is wrong. */
  function CheckDevice(rom: Rom, ramHeader: RamHeader): (r: Option<DeviceInfo>)
    ensures r.Some? <==> rom.magic == ROM_MAGIC && ramHeader.magic == RAM_MAGIC
    ensures r.Some? ==> && r.value.drawAreaOffset == ToInt32(rom.drawAreaOffset)
                        && r.value.drawAreaSize == ToInt32(rom.drawAreaSize)
                        && r.value.videoRam * 1024 <= rom.drawAreaSize < (r.value.videoRam + 1) * 1024
  {
    if rom.magic != ROM_MAGIC then None
    else if ramHeader.magic != RAM_MAGIC then None
    else Some(DeviceInfo(ToInt32(rom.drawAreaOffset), ToInt32(rom.drawAreaSize), rom.drawAreaSize / 1024))
  }

  /** The device's 16-bit modes are x1r5g5b5 and its 32-bit modes x8r8g8b8: a mode is native to
      a screen of `depth` only as depth 15 or depth 24. */
  predicate DepthFits(bits: int, depth: int)
  {
    (bits == 16 && depth == 15) || (bits == 32 && depth == 24)
  }

  /** Mode `m` is the native mode for an `hDisplay` by `vDisplay` screen of `bitsPerPixel` and
      `depth`. */
  predicate Native(m: Mode, hDisplay: int, vDisplay: int, bitsPerPixel: int, depth: int)
  {
    m.xRes == hDisplay && m.yRes == vDisplay && m.bits == bitsPerPixel && DepthFits(m.bits, depth)
  }

  /** The search of `compat_qxl_find_native_mode` from index `i` on: the first native index, or
      -1. */
  function FindNativeFrom(modes: seq<Mode>, i: nat, hDisplay: int, vDisplay: int, bitsPerPixel: int,
                          depth: int): (r: int)
    requires i <= |modes|
    ensures r == -1 || i <= r < |modes|
    ensures r != -1 ==> Native(modes[r], hDisplay, vDisplay, bitsPerPixel, depth)
    ensures r != -1 ==> forall j :: i <= j < r ==> !Native(modes[j], hDisplay, vDisplay, bitsPerPixel, depth)
    ensures r == -1 <==> forall j :: i <= j < |modes| ==> !Native(modes[j], hDisplay, vDisplay, bitsPerPixel, depth)
    decreases |modes| - i
  {
    if i == |modes| then -1
    else if Native(modes[i], hDisplay, vDisplay, bitsPerPixel, depth) then i
    else FindNativeFrom(modes, i + 1, hDisplay, vDisplay, bitsPerPixel, depth)
  }

  /** `compat_qxl_find_native_mode`: the index of the first native mode in the ROM's list, or -1
      when there is none. */
  function FindNativeMode(modes: seq<Mode>, hDisplay: int, vDisplay: int, bitsPerPixel: int, depth: int): (r: int)
    ensures r == -1 || 0 <= r < |modes|
    ensures r != -1 ==> && Native(modes[r], hDisplay, vDisplay, bitsPerPixel, depth)
                        && forall j :: 0 <= j < r ==> !Native(modes[j], hDisplay, vDisplay, bitsPerPixel, depth)
    ensures r == -1 <==> forall j :: 0 <= j < |modes| ==> !Native(modes[j], hDisplay, vDisplay, bitsPerPixel, depth)
  {
    FindNativeFrom(modes, 0, hDisplay, vDisplay, bitsPerPixel, depth)
  }

  /** The answers of `compat_qxl_valid_mode` it can give. */
  datatype ModeStatus = ModeOk | ModeMem | ModeNoMode

  /** The bytes an `hDisplay` by `vDisplay` screen of `bitsPerPixel` takes. */
  function ScreenBytes(hDisplay: int, vDisplay: int, bitsPerPixel: nat): int
  {
    hDisplay * vDisplay * (bitsPerPixel / 8)
  }

  /** `compat_qxl_valid_mode`: too large for the draw area is MODE_MEM, no native mode is
      MODE_NOMODE, and otherwise the mode is accepted together with the index it records in
      `p->Private`. */
  function ValidMode(modes: seq<Mode>, hDisplay: int, vDisplay: int, bitsPerPixel: nat, depth: int,
                     drawAreaSize: int): (r: (ModeStatus, Option<nat>))
    ensures r.0 == ModeMem <==> ScreenBytes(hDisplay, vDisplay, bitsPerPixel) > drawAreaSize
    ensures r.0 == ModeNoMode <==> && ScreenBytes(hDisplay, vDisplay, bitsPerPixel) <= drawAreaSize
                                   && forall j :: 0 <= j < |modes| ==> !Native(modes[j], hDisplay, vDisplay, bitsPerPixel, depth)
    ensures r.0 == ModeOk <==> r.1.Some?
    ensures r.1.Some? ==> && r.1.value < |modes| && Native(modes[r.1.value], hDisplay, vDisplay, bitsPerPixel, depth)
                          && forall j :: 0 <= j < r.1.value ==> !Native(modes[j], hDisplay, vDisplay, bitsPerPixel, depth)
  {
    if ScreenBytes(hDisplay, vDisplay, bitsPerPixel) > drawAreaSize then (ModeMem, None)
    else
      var index := FindNativeMode(modes, hDisplay, vDisplay, bitsPerPixel, depth);
      if index == -1 then (ModeNoMode, None) else (ModeOk, Some(index))
  }

  /** `v & ~7` after adding 7 on a two's complement `int`: `v` rounded up to a multiple of 8. */
  function RoundUp8(v: int): (r: int)
    ensures r % 8 == 0 && v <= r < v + 8
  {
    (v + 7) - (v + 7) % 8
  }

  /** A mode of the monitor's list, as far as the driver sets it: the visible size, the
      horizontal and vertical sync and totals, and the pixel clock in kHz. */
  datatype Timings = Timings(hDisplay: int, hSyncStart: int, hSyncEnd: int, hTotal: int,
                             vDisplay: int, vSyncStart: int, vSyncEnd: int, vTotal: int, clock: int)
  {
    function Size(): (int, int) { (hDisplay, vDisplay) }
  }

  /** The timings `compat_qxl_add_mode` gives a `width` by `height` mode: horizontal sync at 105%
      to 115% and a total of 130% of the width, each rounded up to a multiple of 8; vertical sync
      1 to 4 lines below the picture, a total of 103.5% of the height; a 60 Hz pixel clock. */
  function ModeTimings(width: int, height: int): (t: Timings)
    ensures t.Size() == (width, height)
    ensures t.hSyncStart % 8 == 0 && t.hSyncEnd % 8 == 0 && t.hTotal % 8 == 0
    ensures t.vSyncStart == height + 1 && t.vSyncEnd == height + 4
  {
    var hTotal := RoundUp8(CDiv(width * 130, 100));
    var vTotal := CDiv(height * 1035, 1000);
    Timings(width, RoundUp8(CDiv(width * 105, 100)), RoundUp8(CDiv(width * 115, 100)), hTotal,
            height, height + 1, height + 4, vTotal, CDiv(hTotal * vTotal * 60, 1000))
  }

  /** For a real size the horizontal timings are in order and multiples of 8, and the vertical
      sync lies below the picture. */
  lemma TimingsOrdered(width: int, height: int)
    requires width >= 0 && height >= 0
    ensures var t := ModeTimings(width, height);
            && t.Size() == (width, height)
            && t.hDisplay <= t.hSyncStart <= t.hSyncEnd <= t.hTotal
            && t.hSyncStart % 8 == 0 && t.hSyncEnd % 8 == 0 && t.hTotal % 8 == 0
            && t.vDisplay < t.vSyncStart < t.vSyncEnd
            && t.vDisplay <= t.vTotal
  {
    assert width * 105 / 100 >= width;
    assert width * 105 / 100 <= width * 115 / 100;
    assert width * 115 / 100 <= width * 130 / 100;
    RoundUp8Monotone(width * 105 / 100, width * 115 / 100);
    RoundUp8Monotone(width * 115 / 100, width * 130 / 100);
    assert height * 1035 / 1000 >= height;
  }

  lemma RoundUp8Monotone(a: int, b: int)
    requires a <= b
    ensures RoundUp8(a) <= RoundUp8(b)
  {
    assert RoundUp8(a) == (a + 7) / 8 * 8;
    assert RoundUp8(b) == (b + 7) / 8 * 8;
    assert (a + 7) / 8 <= (b + 7) / 8;
  }

  /** The vertical sync ends inside the frame exactly when the mode is at least 115 lines high:
      lower modes get a total shorter than their sync end. */
  lemma VSyncFitsIff(width: int, height: int)
    requires height >= 0
    ensures var t := ModeTimings(width, height);
            t.vSyncEnd <= t.vTotal <==> height >= 115
  {
    assert height * 1035 == height * 1000 + height * 35;
    if height >= 115 {
      assert height * 35 >= 4000 + 25;
      assert (height * 1000 + height * 35) / 1000 >= height + 4;
    } else {
      assert height * 35 < 4000;
      assert (height * 1000 + height * 35) / 1000 < height + 4;
    }
  }

  /** Some mode of `list` is `width` by `height`. */
  predicate Present(list: seq<Timings>, width: int, height: int)
  {
    exists k :: 0 <= k < |list| && list[k].Size() == (width, height)
  }

  /** No two modes of `list` have the same size. */
  predicate Distinct(list: seq<Timings>)
  {
    forall i, j :: 0 <= i < j < |list| ==> list[i].Size() != list[j].Size()
  }

  /** `compat_qxl_add_mode`: a size already in the monitor's list is skipped; otherwise a mode
      with the timings above goes at the list's end. */
  function AddMode(list: seq<Timings>, width: int, height: int): (r: seq<Timings>)
    ensures Present(r, width, height)
    ensures list <= r && |r| <= |list| + 1
    ensures |r| == |list| + 1 <==> !Present(list, width, height)
  {
    if Present(list, width, height) then list
    else
      var r := list + [ModeTimings(width, height)];
      assert r[|list|].Size() == (width, height);
      r
  }

  /** Adding a size twice adds it once. */
  lemma AddModeIdempotent(list: seq<Timings>, width: int, height: int)
    ensures AddMode(AddMode(list, width, height), width, height) == AddMode(list, width, height)
  {
  }

  /** Adding a mode keeps the sizes of the list distinct. */
  lemma AddModeDistinct(list: seq<Timings>, width: int, height: int)
    requires Distinct(list)
    ensures Distinct(AddMode(list, width, height))
  {
    if !Present(list, width, height) {
      var r := AddMode(list, width, height);
      forall i, j | 0 <= i < j < |r|
        ensures r[i].Size() != r[j].Size()
      {
        if j == |list| {
          assert r[j].Size() == (width, height);
          assert r[i] == list[i];
        }
      }
    }
  }

  /** The width and height `compat_qxl_pre_init` passes for a ROM mode: the `uint32_t` fields
      as `int`s. */
  function ModeSize(m: Mode): (int, int)
  {
    (ToInt32(m.xRes), ToInt32(m.yRes))
  }

  /** The modes of the ROM's list added to the monitor's list in order, each mode of orientation
      0 once. */
  function AddAll(list: seq<Timings>, modes: seq<Mode>): (r: seq<Timings>)
    ensures list <= r && |r| <= |list| + |modes|
    decreases |modes|
  {
    if |modes| == 0 then list
    else
      var next := if modes[0].orientation == 0 then AddMode(list, ModeSize(modes[0]).0, ModeSize(modes[0]).1) else list;
      AddAll(next, modes[1..])
  }

  /** The monitor's list is kept at the front, every mode of orientation 0 ends up present, and
      no size appears twice when none did before. */
  lemma {:induction false} AddAllAdds(list: seq<Timings>, modes: seq<Mode>)
    ensures list <= AddAll(list, modes)
    ensures forall i :: 0 <= i < |modes| && modes[i].orientation == 0 ==>
              Present(AddAll(list, modes), ModeSize(modes[i]).0, ModeSize(modes[i]).1)
    ensures Distinct(list) ==> Distinct(AddAll(list, modes))
    decreases |modes|
  {
    if |modes| > 0 {
      var next := if modes[0].orientation == 0 then AddMode(list, ModeSize(modes[0]).0, ModeSize(modes[0]).1) else list;
      AddAllAdds(next, modes[1..]);
      var r := AddAll(list, modes);
      assert r == AddAll(next, modes[1..]);
      if Distinct(list) && modes[0].orientation == 0 {
        AddModeDistinct(list, ModeSize(modes[0]).0, ModeSize(modes[0]).1);
      }
      forall i | 0 <= i < |modes| && modes[i].orientation == 0
        ensures Present(r, ModeSize(modes[i]).0, ModeSize(modes[i]).1)
      {
        if i == 0 {
          var k :| 0 <= k < |next| && next[k].Size() == ModeSize(modes[0]);
          assert r[k] == next[k];
        } else {
          assert modes[1..][i - 1] == modes[i];
        }
      }
    }
  }

  /** The largest of `pick` over the modes of orientation 0, or 0 when there are none. */
  function MaxOf(modes: seq<Mode>, width: bool): (r: u32)
    ensures forall i :: 0 <= i < |modes| && modes[i].orientation == 0 ==>
              (if width then modes[i].xRes else modes[i].yRes) <= r
    decreases |modes|
  {
    if |modes| == 0 then 0
    else
      var rest := MaxOf(modes[..|modes| - 1], width);
      assert forall i :: 0 <= i < |modes| - 1 ==> modes[..|modes| - 1][i] == modes[i];
      var last := modes[|modes| - 1];
      var v := if width then last.xRes else last.yRes;
      if last.orientation == 0 && v > rest then v else rest
  }

  /** `MaxOf` is the maximum: it bounds every mode of orientation 0 and is 0 or one of them. */
  lemma {:induction false} MaxOfIsMax(modes: seq<Mode>, width: bool)
    ensures forall i :: 0 <= i < |modes| && modes[i].orientation == 0 ==>
              (if width then modes[i].xRes else modes[i].yRes) <= MaxOf(modes, width)
    ensures MaxOf(modes, width) == 0 ||
            exists i :: 0 <= i < |modes| && modes[i].orientation == 0 &&
              (if width then modes[i].xRes else modes[i].yRes) == MaxOf(modes, width)
    decreases |modes|
  {
    if |modes| > 0 {
      var init := modes[..|modes| - 1];
      MaxOfIsMax(init, width);
      forall i | 0 <= i < |init| ensures init[i] == modes[i] { }
    }
  }

  /** The loop of `compat_qxl_pre_init` over the ROM's modes: each mode of orientation 0 is added
      to the monitor's list, and the largest width and height are kept. */
  method AddDriverModes(monitor: seq<Timings>, modes: seq<Mode>) returns (list: seq<Timings>, maxX: u32, maxY: u32)
    ensures list == AddAll(monitor, modes)
    ensures maxX == MaxOf(modes, true) && maxY == MaxOf(modes, false)
  {
    list, maxX, maxY := monitor, 0, 0;
    var i := 0;
    while i < |modes|
      invariant 0 <= i <= |modes|
      invariant AddAll(list, modes[i..]) == AddAll(monitor, modes)
      invariant maxX == MaxOf(modes[..i], true) && maxY == MaxOf(modes[..i], false)
    {
      assert modes[i..][1..] == modes[i + 1..];
      assert modes[..i + 1][..i] == modes[..i];
      if modes[i].orientation == 0 {
        list := AddMode(list, ToInt32(modes[i].xRes), ToInt32(modes[i].yRes));
        if modes[i].xRes > maxX {
          maxX := modes[i].xRes;
        }
        if modes[i].yRes > maxY {
          maxY := modes[i].yRes;
        }
      }
      i := i + 1;
    }
    assert modes[i..] == [];
    assert modes[..i] == modes;
  }

  /** The product of two `unsigned int`s, modulo 2^32. */
  function MulU32(a: int, b: int): (r: u32)
    ensures 0 <= a * b < 0x1_0000_0000 ==> r == a * b
  {
    (a * b) % 0x1_0000_0000
  }

  /** The virtual size `compat_qxl_pre_init` settles on when the configuration names none: the
      widest mode's width, and the tallest mode's height or, when a screen of that width and height
      would not fit in the draw area, as many lines of the widest width as fit.  A configured size
      is kept.  The products are `unsigned int` arithmetic. */
  function VirtualSize(maxX: u32, maxY: u32, bitsPerPixel: nat, drawAreaSize: u32,
                       virtualX: int, virtualY: int): (r: (int, int))
    ensures !(virtualX == 0 && virtualY == 0) ==> r == (virtualX, virtualY)
    ensures virtualX == 0 && virtualY == 0 ==>
              && r.0 == maxX as int && r.1 >= 0
              && (r.1 == maxY as int || r.1 * MulU32(maxX, bitsPerPixel / 8) <= drawAreaSize as int)
  {
    if virtualX == 0 && virtualY == 0 then
      var bytes := bitsPerPixel / 8;
      var row := MulU32(maxX, bytes);
      var height := if MulU32(MulU32(maxX, maxY), bytes) > drawAreaSize then
                      if row == 0 then 0 else drawAreaSize / row
                    else
                      maxY as int;
      (maxX as int, height)
    else
      (virtualX, virtualY)
  }

  /** With no configured size the virtual width is that of the widest upright mode: no upright
      mode is wider, and one of them is that wide unless there is none. */
  lemma VirtualWidthWidest(modes: seq<Mode>, bitsPerPixel: nat, drawAreaSize: u32)
    ensures var w := VirtualSize(MaxOf(modes, true), MaxOf(modes, false), bitsPerPixel, drawAreaSize, 0, 0).0;
            && (forall i :: 0 <= i < |modes| && modes[i].orientation == 0 ==> modes[i].xRes as int <= w)
            && (w == 0 || exists i :: 0 <= i < |modes| && modes[i].orientation == 0 && modes[i].xRes as int == w)
  {
    MaxOfIsMax(modes, true);
  }

  /** When the height is chosen and the byte counts fit in 32 bits, a screen of the widest width
      and that height fits in the draw area, is no taller than the tallest mode, and is as tall as
      it can be: one more line would not fit, or it is the tallest mode's height. */
  lemma {:induction false} VirtualHeightFits(maxX: u32, maxY: u32, bitsPerPixel: nat, drawAreaSize: u32)
    requires maxX * maxY * (bitsPerPixel / 8) < 0x1_0000_0000
    requires maxX * (bitsPerPixel / 8) < 0x1_0000_0000
    ensures var r := VirtualSize(maxX, maxY, bitsPerPixel, drawAreaSize, 0, 0).1;
            var bytes := bitsPerPixel / 8;
            && 0 <= r <= maxY
            && maxX * r * bytes <= drawAreaSize
            && (r == maxY || maxX * (r + 1) * bytes > drawAreaSize)
  {
    var bytes := bitsPerPixel / 8;
    var row := maxX * bytes;
    var r := VirtualSize(maxX, maxY, bitsPerPixel, drawAreaSize, 0, 0).1;
    VirtualHeightUnwrapped(maxX, maxY, bytes, bitsPerPixel, drawAreaSize);
    Reassociate(maxX, bytes, r);
    Reassociate(maxX, bytes, r + 1);
    if row * maxY > drawAreaSize {
      LinesThatFit(row, maxY, drawAreaSize);
    } else {
      Reassociate(maxX, bytes, maxY);
    }
  }

  /** With no 32-bit wrap, the chosen height is stated on plain products. */
  lemma VirtualHeightUnwrapped(maxX: u32, maxY: u32, bytes: nat, bitsPerPixel: nat, drawAreaSize: u32)
    requires bytes == bitsPerPixel / 8
    requires maxX * maxY * bytes < 0x1_0000_0000
    requires maxX * bytes < 0x1_0000_0000
    ensures VirtualSize(maxX, maxY, bitsPerPixel, drawAreaSize, 0, 0).1
            == if (maxX * bytes) * maxY > drawAreaSize then drawAreaSize / (maxX * bytes) else maxY as int
  {
    MulBounds(maxX, maxY, bytes);
    Reassociate(maxX, bytes, maxY);
    assert MulU32(maxX, bytes) == maxX * bytes;
  }

  lemma Reassociate(a: int, b: int, c: int)
    ensures a * c * b == (a * b) * c
  {
  }

  /** When `maxY` rows of `row` bytes overflow `size`, `size / row` rows fit, one more does
      not, and there are fewer of them than `maxY`. */
  lemma LinesThatFit(row: nat, maxY: nat, size: nat)
    requires row * maxY > size
    ensures row > 0
    ensures row * (size / row) <= size < row * (size / row + 1)
    ensures size / row < maxY
  {
    var lines := size / row;
    assert row * (lines + 1) == row * lines + row;
    MulCancel(row, lines, maxY);
  }

  lemma MulBounds(a: nat, b: nat, c: nat)
    requires a * b * c < 0x1_0000_0000
    ensures MulU32(MulU32(a, b), c) == a * b * c
  {
    if c > 0 {
      assert a * b <= a * b * c;
    } else {
      assert a * b * c == 0;
    }
  }

  lemma MulCancel(a: nat, b: nat, c: nat)
    requires a * b < a * c
    ensures b < c
  {
    assert a * (c - b) == a * c - a * b;
  }
}
