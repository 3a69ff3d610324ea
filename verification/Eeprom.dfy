/**
 VIA's use of the EEPROM: validity magic, layout options, dynamic keymap and macro
 buffer (quantum/via.c, quantum/dynamic_keymap.c), down to single-byte writes.
 */
module Eeprom {
  import opened Words

  datatype Write = Write(addr: nat, value: Byte)

  /** What the build fixes: sizes, flash keymap and build date. */
  datatype Config = Config(
    magicAddr: nat,
    layoutSize: nat,
    layoutDefault: Word32,
    customSize: nat,
    layers: nat,
    rows: nat,
    cols: nat,
    maxAddr: nat,
    keymap: (nat, nat, nat) -> Word16,
    buildDate: seq<Byte>)
  {
    function LayoutAddr(): nat { magicAddr + 3 }
    function KeymapAddr(): nat { LayoutAddr() + layoutSize + customSize }
    function KeymapSize(): nat { layers * rows * cols * 2 }
    function MacroAddr(): nat { KeymapAddr() + KeymapSize() }
    function MacroSize(): nat
      requires Sane()
    {
      maxAddr - MacroAddr() + 1
    }

    /** The build's own sanity checks, and a date such as 2019-11-05-11:29:54. */
    predicate Sane() {
      && layoutSize <= 4 && maxAddr <= 65535 && MacroAddr() + 100 <= maxAddr
      && |buildDate| >= 10 && forall i :: i in [2, 3, 5, 6, 8, 9] ==> 0x30 <= buildDate[i] <= 0x39
    }
  }

  // ------------------------------------------------------------ single-byte writes

  function Put(img: seq<Byte>, w: Write): seq<Byte> {
    if w.addr < |img| then img[w.addr := w.value] else img
  }

  function Apply(img: seq<Byte>, ws: seq<Write>): (r: seq<Byte>)
    ensures |r| == |img|
  {
    if ws == [] then img else Put(Apply(img, ws[..|ws| - 1]), ws[|ws| - 1])
  }

  lemma {:induction false} ApplyConcat(img: seq<Byte>, a: seq<Write>, b: seq<Write>)
    ensures Apply(img, a + b) == Apply(Apply(img, a), b)
  {
    if b == [] {
      assert a + b == a;
    } else {
      assert (a + b)[..|a + b| - 1] == a + b[..|b| - 1];
      ApplyConcat(img, a, b[..|b| - 1]);
    }
  }

  /** The state of a device reached by writes: its bytes and its trace. */
  predicate Reached(img: seq<Byte>, trace: seq<Write>, img0: seq<Byte>, trace0: seq<Write>, ws: seq<Write>) {
    img == Apply(img0, ws) && trace == trace0 + ws
  }

  lemma ReachedNext(
    img0: seq<Byte>, trace0: seq<Write>, a: seq<Write>,
    img1: seq<Byte>, trace1: seq<Write>, b: seq<Write>,
    img2: seq<Byte>, trace2: seq<Write>)
    requires Reached(img1, trace1, img0, trace0, a) && Reached(img2, trace2, img1, trace1, b)
    ensures Reached(img2, trace2, img0, trace0, a + b)
  {
    ApplyConcat(img0, a, b);
  }

  /** Writes to other addresses leave a byte alone. */
  lemma {:induction false} ApplyElsewhere(img: seq<Byte>, ws: seq<Write>, a: nat)
    requires a < |img| && forall i :: 0 <= i < |ws| ==> ws[i].addr != a
    ensures Apply(img, ws)[a] == img[a]
  {
    if ws != [] {
      ApplyElsewhere(img, ws[..|ws| - 1], a);
    }
  }

  ghost predicate Distinct(ws: seq<Write>) {
    forall i, j :: 0 <= i < j < |ws| ==> ws[i].addr != ws[j].addr
  }

  /** With distinct addresses every write is there at the end. */
  lemma {:induction false} ApplyDistinct(img: seq<Byte>, ws: seq<Write>, i: nat)
    requires Distinct(ws) && i < |ws| && ws[i].addr < |img|
    ensures Apply(img, ws)[ws[i].addr] == ws[i].value
  {
    var p := ws[..|ws| - 1];
    if i < |p| {
      ApplyDistinct(img, p, i);
      assert p[i] == ws[i];
    }
  }

  // ----------------------------------------------------------------------- magic

  /** Two ASCII digits as packed decimal. */
  function Bcd(hi: Byte, lo: Byte): Byte { (hi % 16) * 16 + lo % 16 }

  function Magic(cfg: Config, i: nat): Byte
    requires cfg.Sane() && i < 3
  {
    Bcd(cfg.buildDate[2 + 3 * i], cfg.buildDate[3 + 3 * i])
  }

  /** via_eeprom_is_valid */
  predicate IsValid(cfg: Config, img: seq<Byte>)
    requires cfg.Sane() && cfg.maxAddr < |img|
  {
    && img[cfg.magicAddr] == Magic(cfg, 0)
    && img[cfg.magicAddr + 1] == Magic(cfg, 1)
    && img[cfg.magicAddr + 2] == Magic(cfg, 2)
  }

  /** Byte `b` shows two decimal digits, given as ASCII characters. */
  predicate ShowsDigits(b: Byte, hi: Byte, lo: Byte) { b / 16 == hi - 0x30 && b % 16 == lo - 0x30 }

  /** The three bytes at the magic address show year, month and day of the build. */
  predicate ShowsDate(cfg: Config, img: seq<Byte>)
    requires cfg.Sane() && cfg.maxAddr < |img|
  {
    && ShowsDigits(img[cfg.magicAddr], cfg.buildDate[2], cfg.buildDate[3])
    && ShowsDigits(img[cfg.magicAddr + 1], cfg.buildDate[5], cfg.buildDate[6])
    && ShowsDigits(img[cfg.magicAddr + 2], cfg.buildDate[8], cfg.buildDate[9])
  }

  lemma PackedDigits(b: Byte, hi: Byte, lo: Byte)
    requires 0x30 <= hi <= 0x39 && 0x30 <= lo <= 0x39
    ensures b == Bcd(hi, lo) <==> ShowsDigits(b, hi, lo)
  {
  }

  /** An image is valid if and only if its magic shows the build date. */
  lemma ValidIsDated(cfg: Config, img: seq<Byte>)
    requires cfg.Sane() && cfg.maxAddr < |img|
    ensures IsValid(cfg, img) <==> ShowsDate(cfg, img)
  {
    PackedDigits(img[cfg.magicAddr], cfg.buildDate[2], cfg.buildDate[3]);
    PackedDigits(img[cfg.magicAddr + 1], cfg.buildDate[5], cfg.buildDate[6]);
    PackedDigits(img[cfg.magicAddr + 2], cfg.buildDate[8], cfg.buildDate[9]);
  }

  /** Two builds accept the same image only if the six digits of their dates agree. */
  lemma OneDatePerImage(cfg: Config, other: Config, img: seq<Byte>)
    requires cfg.Sane() && cfg.maxAddr < |img| && other.Sane() && other.maxAddr < |img|
    requires cfg.magicAddr == other.magicAddr && IsValid(cfg, img) && IsValid(other, img)
    ensures forall i :: i in [2, 3, 5, 6, 8, 9] ==> cfg.buildDate[i] == other.buildDate[i]
  {
    ValidIsDated(cfg, img);
    ValidIsDated(other, img);
  }

  function MagicWrites(cfg: Config, valid: bool): seq<Write>
    requires cfg.Sane()
  {
    [Write(cfg.magicAddr, if valid then Magic(cfg, 0) else 0xFF),
     Write(cfg.magicAddr + 1, if valid then Magic(cfg, 1) else 0xFF),
     Write(cfg.magicAddr + 2, if valid then Magic(cfg, 2) else 0xFF)]
  }

  // -------------------------------------------------------------- layout options

  /** The i-th least significant byte. */
  function ByteOf(v: Word32, i: nat): Byte { if i == 0 then v % 0x100 else ByteOf(v / 0x100, i - 1) }

  /** The value without its n least significant bytes. */
  function ShiftBytes(v: Word32, n: nat): Word32 { if n == 0 then v else ShiftBytes(v / 0x100, n - 1) }

  lemma {:induction false} ShiftOneMore(v: Word32, n: nat)
    ensures ShiftBytes(v, n + 1) == ShiftBytes(v, n) / 0x100
    ensures ByteOf(v, n) == ShiftBytes(v, n) % 0x100
  {
    if n > 0 {
      ShiftOneMore(v / 0x100, n - 1);
    }
  }

  /** via_set_layout_options: least significant byte first, from the highest address down. */
  function LayoutWrites(cfg: Config, v: Word32, n: nat): seq<Write>
    requires n <= cfg.layoutSize
  {
    if n == 0 then []
    else LayoutWrites(cfg, v, n - 1) + [Write(cfg.LayoutAddr() + cfg.layoutSize - n, ByteOf(v, n - 1))]
  }

  /** via_get_layout_options: most significant byte first. */
  function LayoutRead(cfg: Config, img: seq<Byte>, n: nat): nat
    requires n <= cfg.layoutSize && cfg.LayoutAddr() + cfg.layoutSize <= |img|
  {
    if n == 0 then 0 else LayoutRead(cfg, img, n - 1) * 0x100 + img[cfg.LayoutAddr() + n - 1]
  }

  // --------------------------------------------------------------------- keymap

  function KeyOffset(cfg: Config, layer: nat, row: nat, col: nat): nat {
    layer * cfg.rows * cfg.cols * 2 + row * cfg.cols * 2 + col * 2
  }

  /** dynamic_keymap_key_to_eeprom_address */
  function KeyAddress(cfg: Config, layer: nat, row: nat, col: nat): nat {
    cfg.KeymapAddr() + KeyOffset(cfg, layer, row, col)
  }

  /** dynamic_keymap_set_keycode: big endian. */
  function KeyWrites(cfg: Config, layer: nat, row: nat, col: nat, keycode: Word16): seq<Write> {
    [Write(KeyAddress(cfg, layer, row, col), keycode / 0x100),
     Write(KeyAddress(cfg, layer, row, col) + 1, keycode % 0x100)]
  }

  function RowWrites(cfg: Config, layer: nat, row: nat, col: nat): seq<Write> {
    if col == 0 then []
    else RowWrites(cfg, layer, row, col - 1) + KeyWrites(cfg, layer, row, col - 1, cfg.keymap(layer, row, col - 1))
  }

  function LayerWrites(cfg: Config, layer: nat, row: nat): seq<Write> {
    if row == 0 then [] else LayerWrites(cfg, layer, row - 1) + RowWrites(cfg, layer, row - 1, cfg.cols)
  }

  /** dynamic_keymap_reset, for the layers below `layer`. */
  function KeymapWrites(cfg: Config, layer: nat): seq<Write> {
    if layer == 0 then [] else KeymapWrites(cfg, layer - 1) + LayerWrites(cfg, layer - 1, cfg.rows)
  }

  /** dynamic_keymap_macro_reset, up to offset `n`. */
  function MacroWrites(cfg: Config, n: nat): seq<Write> {
    if n == 0 then [] else MacroWrites(cfg, n - 1) + [Write(cfg.MacroAddr() + n - 1, 0)]
  }

  predicate InKeymap(cfg: Config, layer: nat, row: nat, col: nat) {
    layer < cfg.layers && row < cfg.rows && col < cfg.cols
  }

  /** dynamic_keymap_get_keycode */
  function Keycode(cfg: Config, img: seq<Byte>, layer: nat, row: nat, col: nat): Word16
    requires KeyAddress(cfg, layer, row, col) + 1 < |img|
  {
    img[KeyAddress(cfg, layer, row, col)] as int * 0x100 + img[KeyAddress(cfg, layer, row, col) + 1]
  }

  // ------------------------------------------------------------- initialisation

  /** Everything eeconfig_init_via writes between the two magics. */
  function BodyWrites(cfg: Config): seq<Write>
    requires cfg.Sane()
  {
    LayoutWrites(cfg, cfg.layoutDefault, cfg.layoutSize) + KeymapWrites(cfg, cfg.layers)
      + MacroWrites(cfg, cfg.MacroSize())
  }

  /** eeconfig_init_via: invalidate, reset everything, validate last. */
  function InitWrites(cfg: Config): seq<Write>
    requires cfg.Sane()
  {
    MagicWrites(cfg, false) + BodyWrites(cfg) + MagicWrites(cfg, true)
  }

  class EepromDevice {
    const cfg: Config
    const bytes: array<Byte>
    /** Every eeprom_update_byte so far, in order. */
    ghost var trace: seq<Write>

    ghost predicate Valid() {
      cfg.Sane() && cfg.maxAddr < bytes.Length
    }

    constructor (cfg: Config, bytes: array<Byte>)
      requires cfg.Sane() && cfg.maxAddr < bytes.Length
      ensures Valid() && this.cfg == cfg && this.bytes == bytes && trace == []
    {
      this.cfg := cfg;
      this.bytes := bytes;
      trace := [];
    }

    /** The writes `ws` were made, in this order, and nothing else. */
    twostate predicate Wrote(ws: seq<Write>)
      reads this, bytes
    {
      Reached(bytes[..], trace, old(bytes[..]), old(trace), ws)
    }

    method UpdateByte(addr: nat, value: Byte)
      requires Valid() && addr < bytes.Length
      modifies this`trace, bytes
      ensures Wrote([Write(addr, value)])
    {
      bytes[addr] := value;
      trace := trace + [Write(addr, value)];
      assert Apply(old(bytes[..]), [Write(addr, value)][..0]) == old(bytes[..]);
    }

    method ViaEepromIsValid() returns (valid: bool)
      requires Valid()
      ensures valid == IsValid(cfg, bytes[..]) == ShowsDate(cfg, bytes[..])
    {
      ValidIsDated(cfg, bytes[..]);
      valid := bytes[cfg.magicAddr] == Magic(cfg, 0)
        && bytes[cfg.magicAddr + 1] == Magic(cfg, 1)
        && bytes[cfg.magicAddr + 2] == Magic(cfg, 2);
    }

    method ViaEepromSetValid(valid: bool)
      requires Valid()
      modifies this`trace, bytes
      ensures Wrote(MagicWrites(cfg, valid))
    {
      ghost var img := bytes[..];
      UpdateByte(cfg.magicAddr, if valid then Magic(cfg, 0) else 0xFF);
      UpdateByte(cfg.magicAddr + 1, if valid then Magic(cfg, 1) else 0xFF);
      UpdateByte(cfg.magicAddr + 2, if valid then Magic(cfg, 2) else 0xFF);
      var ws := MagicWrites(cfg, valid);
      ApplyConcat(img, [ws[0]], [ws[1]]);
      ApplyConcat(img, [ws[0]] + [ws[1]], [ws[2]]);
      assert [ws[0]] + [ws[1]] + [ws[2]] == ws;
    }

    method ViaSetLayoutOptions(value: Word32)
      requires Valid()
      modifies this`trace, bytes
      ensures Wrote(LayoutWrites(cfg, value, cfg.layoutSize))
    {
      var v: Word32 := value;
      for i := 0 to cfg.layoutSize
        invariant Wrote(LayoutWrites(cfg, value, i))
        invariant v == ShiftBytes(value, i)
      {
        var address := cfg.LayoutAddr() + cfg.layoutSize - 1 - i;
        ShiftOneMore(value, i);
        UpdateByte(address, v % 0x100);
        ApplyConcat(old(bytes[..]), LayoutWrites(cfg, value, i), [Write(address, v % 0x100)]);
        v := v / 0x100;
      }
    }

    method ViaGetLayoutOptions() returns (value: Word32)
      requires Valid()
      ensures value == LayoutRead(cfg, bytes[..], cfg.layoutSize)
    {
      value := 0;
      for i := 0 to cfg.layoutSize
        invariant value == LayoutRead(cfg, bytes[..], i)
        invariant i == 0 ==> value == 0
        invariant i == 1 ==> value < 0x100
        invariant i == 2 ==> value < 0x1_0000
        invariant i == 3 ==> value < 0x100_0000
      {
        value := value * 0x100 + bytes[cfg.LayoutAddr() + i];
      }
    }

    method SetKeycode(layer: nat, row: nat, col: nat, keycode: Word16)
      requires Valid() && InKeymap(cfg, layer, row, col)
      modifies this`trace, bytes
      ensures Wrote(KeyWrites(cfg, layer, row, col, keycode))
      ensures var a := cfg.KeymapAddr() + 2 * ((layer * cfg.rows + row) * cfg.cols + col);
        a + 1 < bytes.Length && bytes[..] == old(bytes[..])[a := keycode / 0x100][a + 1 := keycode % 0x100]
    {
      AddressMap(cfg, layer, row, col);
      ghost var img := bytes[..];
      KeyFits(cfg, layer, row, col);
      var address := KeyAddress(cfg, layer, row, col);
      UpdateByte(address, keycode / 0x100);
      UpdateByte(address + 1, keycode % 0x100);
      var ws := KeyWrites(cfg, layer, row, col, keycode);
      ApplyConcat(img, [ws[0]], [ws[1]]);
      assert [ws[0]] + [ws[1]] == ws;
    }

    method GetKeycode(layer: nat, row: nat, col: nat) returns (keycode: Word16)
      requires Valid() && InKeymap(cfg, layer, row, col)
      ensures KeyAddress(cfg, layer, row, col) + 1 < bytes.Length
      ensures keycode == Keycode(cfg, bytes[..], layer, row, col)
      ensures var a := cfg.KeymapAddr() + 2 * ((layer * cfg.rows + row) * cfg.cols + col);
        a + 1 < bytes.Length && keycode / 0x100 == bytes[a] && keycode % 0x100 == bytes[a + 1]
    {
      AddressMap(cfg, layer, row, col);
      KeyFits(cfg, layer, row, col);
      var address := KeyAddress(cfg, layer, row, col);
      keycode := bytes[address] as int * 0x100 + bytes[address + 1];
    }

    /** The innermost loop of dynamic_keymap_reset. */
    method ResetRow(layer: nat, row: nat)
      requires Valid() && layer < cfg.layers && row < cfg.rows
      modifies this`trace, bytes
      ensures Wrote(RowWrites(cfg, layer, row, cfg.cols))
    {
      ghost var img, trace0 := bytes[..], trace;
      for col := 0 to cfg.cols
        invariant Wrote(RowWrites(cfg, layer, row, col))
      {
        ghost var ws, img1, trace1 := RowWrites(cfg, layer, row, col), bytes[..], trace;
        SetKeycode(layer, row, col, cfg.keymap(layer, row, col));
        ReachedNext(img, trace0, ws, img1, trace1, KeyWrites(cfg, layer, row, col, cfg.keymap(layer, row, col)),
                    bytes[..], trace);
      }
    }

    /** The middle loop. */
    method ResetLayer(layer: nat)
      requires Valid() && layer < cfg.layers
      modifies this`trace, bytes
      ensures Wrote(LayerWrites(cfg, layer, cfg.rows))
    {
      ghost var img, trace0 := bytes[..], trace;
      for row := 0 to cfg.rows
        invariant Wrote(LayerWrites(cfg, layer, row))
      {
        ghost var ws, img1, trace1 := LayerWrites(cfg, layer, row), bytes[..], trace;
        ResetRow(layer, row);
        ReachedNext(img, trace0, ws, img1, trace1, RowWrites(cfg, layer, row, cfg.cols), bytes[..], trace);
      }
    }

    /** dynamic_keymap_reset */
    method DynamicKeymapReset()
      requires Valid()
      modifies this`trace, bytes
      ensures Wrote(KeymapWrites(cfg, cfg.layers))
    {
      ghost var img, trace0 := bytes[..], trace;
      for layer := 0 to cfg.layers
        invariant Wrote(KeymapWrites(cfg, layer))
      {
        ghost var ws, img1, trace1 := KeymapWrites(cfg, layer), bytes[..], trace;
        ResetLayer(layer);
        ReachedNext(img, trace0, ws, img1, trace1, LayerWrites(cfg, layer, cfg.rows), bytes[..], trace);
      }
    }

    method MacroReset()
      requires Valid()
      modifies this`trace, bytes
      ensures Wrote(MacroWrites(cfg, cfg.MacroSize()))
    {
      ghost var img := bytes[..];
      var p := cfg.MacroAddr();
      var end := cfg.MacroAddr() + cfg.MacroSize();
      while p != end
        invariant cfg.MacroAddr() <= p <= end && Wrote(MacroWrites(cfg, p - cfg.MacroAddr()))
        decreases end - p
      {
        ghost var ws := MacroWrites(cfg, p - cfg.MacroAddr());
        UpdateByte(p, 0);
        ApplyConcat(img, ws, [Write(p, 0)]);
        p := p + 1;
      }
    }

    method EeconfigInitVia()
      requires Valid()
      modifies this`trace, bytes
      ensures Wrote(InitWrites(cfg))
    {
      ghost var img, trace0 := bytes[..], trace;
      ghost var a, b := MagicWrites(cfg, false), LayoutWrites(cfg, cfg.layoutDefault, cfg.layoutSize);
      ghost var c, d, e := KeymapWrites(cfg, cfg.layers), MacroWrites(cfg, cfg.MacroSize()), MagicWrites(cfg, true);
      ViaEepromSetValid(false);
      ghost var img1, trace1 := bytes[..], trace;
      ViaSetLayoutOptions(cfg.layoutDefault);
      ghost var img2, trace2 := bytes[..], trace;
      ReachedNext(img, trace0, a, img1, trace1, b, img2, trace2);
      DynamicKeymapReset();
      ghost var img3, trace3 := bytes[..], trace;
      ReachedNext(img, trace0, a + b, img2, trace2, c, img3, trace3);
      MacroReset();
      ghost var img4, trace4 := bytes[..], trace;
      ReachedNext(img, trace0, a + b + c, img3, trace3, d, img4, trace4);
      ViaEepromSetValid(true);
      ReachedNext(img, trace0, a + b + c + d, img4, trace4, e, bytes[..], trace);
      assert a + b + c + d + e == InitWrites(cfg);
    }

    /** via_init, with no keyboard-level hook. */
    method ViaInit()
      requires Valid()
      modifies this`trace, bytes
      ensures Wrote(if IsValid(cfg, old(bytes[..])) then [] else InitWrites(cfg))
    {
      var valid := ViaEepromIsValid();
      if !valid {
        EeconfigInitVia();
      }
    }
  }

  /**
   The address map: three magic bytes, the options, custom bytes, then two bytes for each
   key, layer by layer and row by row, and the macros up to the last address.
   */
  lemma AddressMap(cfg: Config, layer: nat, row: nat, col: nat)
    ensures cfg.LayoutAddr() == cfg.magicAddr + 3
    ensures cfg.KeymapAddr() == cfg.magicAddr + 3 + cfg.layoutSize + cfg.customSize
    ensures KeyAddress(cfg, layer, row, col) == cfg.KeymapAddr() + 2 * ((layer * cfg.rows + row) * cfg.cols + col)
    ensures cfg.MacroAddr() == KeyAddress(cfg, cfg.layers, 0, 0)
    ensures cfg.Sane() ==> cfg.MacroAddr() + cfg.MacroSize() == cfg.maxAddr + 1
  {
    assert (layer * cfg.rows + row) * cfg.cols == layer * cfg.rows * cfg.cols + row * cfg.cols;
  }

  lemma OffsetNext(cfg: Config, layer: nat, row: nat, col: nat)
    ensures KeyOffset(cfg, layer, row, cfg.cols) == KeyOffset(cfg, layer, row + 1, 0)
    ensures KeyOffset(cfg, layer, cfg.rows, 0) == KeyOffset(cfg, layer + 1, 0, 0)
    ensures KeyOffset(cfg, layer, row, col + 1) == KeyOffset(cfg, layer, row, col) + 2
  {
    assert (row + 1) * cfg.cols == row * cfg.cols + cfg.cols;
    assert (layer + 1) * cfg.rows * cfg.cols == layer * cfg.rows * cfg.cols + cfg.rows * cfg.cols by {
      assert (layer + 1) * cfg.rows == layer * cfg.rows + cfg.rows;
    }
  }

  lemma KeyFits(cfg: Config, layer: nat, row: nat, col: nat)
    requires InKeymap(cfg, layer, row, col)
    ensures KeyOffset(cfg, layer, row, col) + 2 <= cfg.KeymapSize()
    ensures cfg.Sane() ==> KeyAddress(cfg, layer, row, col) + 2 <= cfg.MacroAddr()
  {
    OffsetGrows(cfg, layer, row, col);
  }

  /** Keys are laid out one after the other. */
  lemma OffsetGrows(cfg: Config, layer: nat, row: nat, col: nat)
    requires InKeymap(cfg, layer, row, col)
    ensures KeyOffset(cfg, layer, row, col) + 2 <= KeyOffset(cfg, cfg.layers, 0, 0)
  {
    assert (row + 1) * cfg.cols <= cfg.rows * cfg.cols;
    assert (row + 1) * cfg.cols == row * cfg.cols + cfg.cols;
    assert (layer + 1) * (cfg.rows * cfg.cols) <= cfg.layers * (cfg.rows * cfg.cols);
    assert (layer + 1) * (cfg.rows * cfg.cols) == layer * (cfg.rows * cfg.cols) + cfg.rows * cfg.cols;
    assert layer * (cfg.rows * cfg.cols) == layer * cfg.rows * cfg.cols;
    assert cfg.layers * (cfg.rows * cfg.cols) == cfg.layers * cfg.rows * cfg.cols;
  }

  // ------------------------------------------------------------ what a reset means

  /** Writes to consecutive addresses from `base` up. */
  ghost predicate Contiguous(ws: seq<Write>, base: nat) {
    forall i :: 0 <= i < |ws| ==> ws[i].addr == base + i
  }

  lemma {:induction false} RowContiguous(cfg: Config, layer: nat, row: nat, col: nat)
    ensures |RowWrites(cfg, layer, row, col)| == 2 * col
    ensures Contiguous(RowWrites(cfg, layer, row, col), KeyAddress(cfg, layer, row, 0))
  {
    if col > 0 {
      RowContiguous(cfg, layer, row, col - 1);
    }
  }

  lemma ContiguousAppend(a: seq<Write>, b: seq<Write>, base: nat)
    requires Contiguous(a, base) && Contiguous(b, base + |a|)
    ensures Contiguous(a + b, base)
  {
  }

  lemma {:induction false} LayerContiguous(cfg: Config, layer: nat, row: nat)
    ensures |LayerWrites(cfg, layer, row)| == KeyOffset(cfg, layer, row, 0) - KeyOffset(cfg, layer, 0, 0)
    ensures Contiguous(LayerWrites(cfg, layer, row), KeyAddress(cfg, layer, 0, 0))
  {
    if row > 0 {
      LayerContiguous(cfg, layer, row - 1);
      RowContiguous(cfg, layer, row - 1, cfg.cols);
      OffsetNext(cfg, layer, row - 1, 0);
      ContiguousAppend(LayerWrites(cfg, layer, row - 1), RowWrites(cfg, layer, row - 1, cfg.cols), KeyAddress(cfg, layer, 0, 0));
    }
  }

  lemma {:induction false} KeymapContiguous(cfg: Config, layer: nat)
    ensures |KeymapWrites(cfg, layer)| == KeyOffset(cfg, layer, 0, 0)
    ensures Contiguous(KeymapWrites(cfg, layer), cfg.KeymapAddr())
  {
    if layer > 0 {
      KeymapContiguous(cfg, layer - 1);
      LayerContiguous(cfg, layer - 1, cfg.rows);
      OffsetNext(cfg, layer - 1, 0, 0);
      ContiguousAppend(KeymapWrites(cfg, layer - 1), LayerWrites(cfg, layer - 1, cfg.rows), cfg.KeymapAddr());
    }
  }

  /** The keymap writes hold each key's keycode at its own address. */
  lemma {:induction false} KeymapHolds(cfg: Config, n: nat, layer: nat, row: nat, col: nat)
    requires n <= cfg.layers && InKeymap(cfg, layer, row, col) && layer < n
    ensures HoldsAt(KeymapWrites(cfg, n), KeyOffset(cfg, layer, row, col), cfg.keymap(layer, row, col))
  {
    if layer < n - 1 {
      KeymapHolds(cfg, n - 1, layer, row, col);
      HoldsOn(KeymapWrites(cfg, n - 1), LayerWrites(cfg, n - 1, cfg.rows), KeyOffset(cfg, layer, row, col),
              cfg.keymap(layer, row, col));
    } else {
      var i := KeyOffset(cfg, layer, row, col) - KeyOffset(cfg, layer, 0, 0);
      KeymapContiguous(cfg, layer);
      LayerHolds(cfg, layer, cfg.rows, row, col);
      HoldsBehind(KeymapWrites(cfg, layer), LayerWrites(cfg, layer, cfg.rows), i, cfg.keymap(layer, row, col));
    }
  }

  /** Writes i and i + 1 are the two bytes of a keycode. */
  predicate HoldsAt(ws: seq<Write>, i: int, keycode: Word16) {
    && 0 <= i && i + 1 < |ws|
    && ws[i].value == keycode / 0x100 && ws[i + 1].value == keycode % 0x100
  }

  lemma HoldsOn(ws: seq<Write>, more: seq<Write>, i: int, keycode: Word16)
    requires HoldsAt(ws, i, keycode)
    ensures HoldsAt(ws + more, i, keycode)
  {
  }

  lemma HoldsBehind(before: seq<Write>, ws: seq<Write>, i: int, keycode: Word16)
    requires HoldsAt(ws, i, keycode)
    ensures HoldsAt(before + ws, |before| + i, keycode)
  {
  }

  lemma {:induction false} LayerHolds(cfg: Config, layer: nat, n: nat, row: nat, col: nat)
    requires n <= cfg.rows && InKeymap(cfg, layer, row, col) && row < n
    ensures HoldsAt(LayerWrites(cfg, layer, n), KeyOffset(cfg, layer, row, col) - KeyOffset(cfg, layer, 0, 0),
                    cfg.keymap(layer, row, col))
  {
    if row < n - 1 {
      LayerHolds(cfg, layer, n - 1, row, col);
      HoldsOn(LayerWrites(cfg, layer, n - 1), RowWrites(cfg, layer, n - 1, cfg.cols),
              KeyOffset(cfg, layer, row, col) - KeyOffset(cfg, layer, 0, 0), cfg.keymap(layer, row, col));
    } else {
      LayerContiguous(cfg, layer, row);
      RowHolds(cfg, layer, row, cfg.cols, col);
      HoldsBehind(LayerWrites(cfg, layer, row), RowWrites(cfg, layer, row, cfg.cols), 2 * col, cfg.keymap(layer, row, col));
    }
  }

  lemma {:induction false} RowHolds(cfg: Config, layer: nat, row: nat, n: nat, col: nat)
    requires col < n
    ensures HoldsAt(RowWrites(cfg, layer, row, n), 2 * col, cfg.keymap(layer, row, col))
  {
    RowContiguous(cfg, layer, row, n - 1);
    var last := KeyWrites(cfg, layer, row, n - 1, cfg.keymap(layer, row, n - 1));
    if col < n - 1 {
      RowHolds(cfg, layer, row, n - 1, col);
      HoldsOn(RowWrites(cfg, layer, row, n - 1), last, 2 * col, cfg.keymap(layer, row, col));
    } else {
      HoldsBehind(RowWrites(cfg, layer, row, col), last, 0, cfg.keymap(layer, row, col));
    }
  }
}
