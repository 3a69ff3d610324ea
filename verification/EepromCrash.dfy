/**
 Crash consistency of VIA's EEPROM initialisation: power may fail after any number
 of single-byte writes, on any number of boots.
 */
module EepromCrash {
  import opened Words
  import opened Eeprom

  // ------------------------------------------------------------- layout options

  function Pow256(n: nat): (p: nat)
    ensures p > 0
  {
    if n == 0 then 1 else 0x100 * Pow256(n - 1)
  }

  lemma LowByteFirst(x: nat, p: nat)
    requires p > 0
    ensures (x / 0x100 % p) * 0x100 + x % 0x100 == x % (0x100 * p)
  {
    var q, r := x / 0x100, x % 0x100;
    var a, b := q / p, q % p;
    assert q == p * a + b;
    assert x == (0x100 * p) * a + (0x100 * b + r) by {
      assert 0x100 * (p * a) == (0x100 * p) * a;
    }
    UniqueRemainder(x, 0x100 * p, a, 0x100 * b + r);
  }

  lemma UniqueRemainder(x: nat, m: nat, a: nat, r: nat)
    requires m > 0 && x == m * a + r && r < m
    ensures x % m == r
  {
    var a' := x / m;
    assert m * a' + x % m == m * a + r;
    Multiples(m, a, a');
    Multiples(m, a', a);
  }

  lemma {:induction false} Multiples(m: nat, a: nat, b: nat)
    ensures a < b ==> m * a + m <= m * b
  {
    if a < b {
      assert m * b == m * (b - 1) + m;
      Multiples(m, a, b - 1);
    }
  }

  /** Where each byte of the options lies. */
  ghost predicate HoldsLayout(cfg: Config, img: seq<Byte>, v: Word32) {
    && cfg.LayoutAddr() + cfg.layoutSize <= |img|
    && forall j :: 0 <= j < cfg.layoutSize ==> OptionByte(cfg, img, j) == ByteOf(v, cfg.layoutSize - 1 - j)
  }

  function OptionByte(cfg: Config, img: seq<Byte>, j: nat): Byte
    requires cfg.LayoutAddr() + j < |img|
  {
    img[cfg.LayoutAddr() + j]
  }

  lemma {:induction false} ReadsLayout(cfg: Config, img: seq<Byte>, v: Word32, n: nat)
    requires HoldsLayout(cfg, img, v) && n <= cfg.layoutSize
    ensures LayoutRead(cfg, img, n) == ShiftBytes(v, cfg.layoutSize - n) % Pow256(n)
  {
    if n > 0 {
      var k := cfg.layoutSize - n;
      ReadsLayout(cfg, img, v, n - 1);
      assert OptionByte(cfg, img, n - 1) == ByteOf(v, k);
      ReadsOneMore(v, k, n);
    }
  }

  lemma ReadsOneMore(v: Word32, k: nat, n: nat)
    requires n > 0
    ensures ShiftBytes(v, k + 1) % Pow256(n - 1) * 0x100 + ByteOf(v, k) == ShiftBytes(v, k) % Pow256(n)
  {
    ShiftOneMore(v, k);
    LowByteFirst(ShiftBytes(v, k), Pow256(n - 1));
  }

  lemma {:induction false} LayoutWritesShape(cfg: Config, v: Word32, n: nat)
    requires n <= cfg.layoutSize
    ensures var ws := LayoutWrites(cfg, v, n);
      && |ws| == n
      && forall i :: 0 <= i < n ==> ws[i] == Write(cfg.LayoutAddr() + cfg.layoutSize - 1 - i, ByteOf(v, i))
  {
    if n > 0 {
      LayoutWritesShape(cfg, v, n - 1);
    }
  }

  lemma LayoutWritesHold(cfg: Config, img: seq<Byte>, v: Word32)
    requires cfg.LayoutAddr() + cfg.layoutSize <= |img|
    ensures HoldsLayout(cfg, Apply(img, LayoutWrites(cfg, v, cfg.layoutSize)), v)
  {
    var ws := LayoutWrites(cfg, v, cfg.layoutSize);
    LayoutWritesShape(cfg, v, cfg.layoutSize);
    forall j | 0 <= j < cfg.layoutSize
      ensures OptionByte(cfg, Apply(img, ws), j) == ByteOf(v, cfg.layoutSize - 1 - j)
    {
      ApplyDistinct(img, ws, cfg.layoutSize - 1 - j);
    }
  }

  lemma {:induction false} ByteOfPower(v: Word32, j: nat)
    ensures ByteOf(v, j) == v / Pow256(j) % 0x100
  {
    if j > 0 {
      ByteOfPower(v / 0x100, j - 1);
      DividedTwice(v, Pow256(j - 1));
    }
  }

  lemma DividedTwice(v: nat, p: nat)
    requires p > 0
    ensures v / 0x100 / p == v / (0x100 * p)
  {
    var q, r := v / 0x100, v % 0x100;
    var a, b := q / p, q % p;
    assert v == 0x100 * (p * a + b) + r;
    assert v == (0x100 * p) * a + (0x100 * b + r) by {
      assert 0x100 * (p * a) == (0x100 * p) * a;
    }
    UniqueQuotient(v, 0x100 * p, a, 0x100 * b + r);
  }

  lemma UniqueQuotient(x: nat, m: nat, a: nat, r: nat)
    requires m > 0 && x == m * a + r && r < m
    ensures x / m == a
  {
    var a' := x / m;
    assert m * a' + x % m == m * a + r;
    Multiples(m, a, a');
    Multiples(m, a', a);
  }

  /** Layout options are stored most significant byte first. */
  lemma LayoutBytes(cfg: Config, img: seq<Byte>, v: Word32, j: nat)
    requires cfg.LayoutAddr() + cfg.layoutSize <= |img| && j < cfg.layoutSize
    ensures var img' := Apply(img, LayoutWrites(cfg, v, cfg.layoutSize));
      img'[cfg.LayoutAddr() + cfg.layoutSize - 1 - j] == v / Pow256(j) % 0x100
  {
    LayoutWritesHold(cfg, img, v);
    ByteOfPower(v, j);
    var k := cfg.layoutSize - 1 - j;
    assert OptionByte(cfg, Apply(img, LayoutWrites(cfg, v, cfg.layoutSize)), k) == ByteOf(v, cfg.layoutSize - 1 - k);
  }

  /** Layout options read back as stored, cut to the bytes reserved for them. */
  lemma LayoutRoundTrip(cfg: Config, img: seq<Byte>, v: Word32)
    requires cfg.LayoutAddr() + cfg.layoutSize <= |img|
    ensures LayoutRead(cfg, Apply(img, LayoutWrites(cfg, v, cfg.layoutSize)), cfg.layoutSize) == v % Pow256(cfg.layoutSize)
  {
    LayoutWritesHold(cfg, img, v);
    ReadsLayout(cfg, Apply(img, LayoutWrites(cfg, v, cfg.layoutSize)), v, cfg.layoutSize);
  }

  // -------------------------------------------------------------------- keycodes

  lemma KeysApart(cfg: Config, l: nat, r: nat, c: nat, l': nat, r': nat, c': nat)
    requires InKeymap(cfg, l, r, c) && InKeymap(cfg, l', r', c') && (l, r, c) != (l', r', c')
    ensures var d := KeyOffset(cfg, l, r, c) - KeyOffset(cfg, l', r', c'); d >= 2 || d <= -2
  {
    if l < l' || (l == l' && (r < r' || (r == r' && c < c'))) {
      LaterKeyHigher(cfg, l, r, c, l', r', c');
    } else {
      LaterKeyHigher(cfg, l', r', c', l, r, c);
    }
  }

  lemma LaterKeyHigher(cfg: Config, l: nat, r: nat, c: nat, l': nat, r': nat, c': nat)
    requires InKeymap(cfg, l, r, c) && InKeymap(cfg, l', r', c')
    requires l < l' || (l == l' && (r < r' || (r == r' && c < c')))
    ensures KeyOffset(cfg, l, r, c) + 2 <= KeyOffset(cfg, l', r', c')
  {
    if l < l' {
      OffsetGrows(cfg.(layers := l'), l, r, c);
    } else if r < r' {
      RowStep(cfg.cols, r, r');
    }
  }

  lemma RowStep(cols: nat, r: nat, r': nat)
    requires r < r'
    ensures r * cols + cols <= r' * cols
  {
    assert (r + 1) * cols == r * cols + cols;
    assert (r + 1) * cols <= r' * cols;
  }

  /** Setting a keycode is read back at that key, and at no other. */
  lemma {:induction false} KeycodeRoundTrip(cfg: Config, img: seq<Byte>, l: nat, r: nat, c: nat, keycode: Word16,
                                            l': nat, r': nat, c': nat)
    requires cfg.Sane() && cfg.maxAddr < |img|
    requires InKeymap(cfg, l, r, c) && InKeymap(cfg, l', r', c')
    ensures KeyAddress(cfg, l', r', c') + 1 < |img|
    ensures var img' := Apply(img, KeyWrites(cfg, l, r, c, keycode));
      Keycode(cfg, img', l', r', c') == if (l, r, c) == (l', r', c') then keycode else Keycode(cfg, img, l', r', c')
  {
    var ws := KeyWrites(cfg, l, r, c, keycode);
    var a := KeyAddress(cfg, l', r', c');
    KeyFits(cfg, l, r, c);
    KeyFits(cfg, l', r', c');
    if (l, r, c) == (l', r', c') {
      ApplyDistinct(img, ws, 0);
      ApplyDistinct(img, ws, 1);
    } else {
      KeysApart(cfg, l, r, c, l', r', c');
      ApplyElsewhere(img, ws, a);
      ApplyElsewhere(img, ws, a + 1);
    }
  }

  // ---------------------------------------------------------------- full resets

  /** Addresses that initialisation never touches. */
  predicate Foreign(cfg: Config, a: nat) {
    a < cfg.magicAddr || a > cfg.maxAddr || cfg.LayoutAddr() + cfg.layoutSize <= a < cfg.KeymapAddr()
  }

  /** Default options, flash keymap, zeroed macros, valid magic, and the rest as in `orig`. */
  ghost predicate FullyReset(cfg: Config, orig: seq<Byte>, img: seq<Byte>)
    requires cfg.Sane() && cfg.maxAddr < |orig|
  {
    && |img| == |orig| && IsValid(cfg, img)
    && LayoutRead(cfg, img, cfg.layoutSize) == cfg.layoutDefault % Pow256(cfg.layoutSize)
    && (forall l, r, c :: InKeymap(cfg, l, r, c) ==> HoldsKey(cfg, img, l, r, c))
    && (forall a :: cfg.MacroAddr() <= a <= cfg.maxAddr ==> img[a] == 0)
    && SameForeign(cfg, orig, img)
  }

  ghost predicate HoldsKey(cfg: Config, img: seq<Byte>, l: nat, r: nat, c: nat) {
    KeyAddress(cfg, l, r, c) + 1 < |img| && Keycode(cfg, img, l, r, c) == cfg.keymap(l, r, c)
  }

  ghost predicate SameForeign(cfg: Config, orig: seq<Byte>, img: seq<Byte>) {
    |img| == |orig| && forall a :: 0 <= a < |orig| && Foreign(cfg, a) ==> img[a] == orig[a]
  }

  lemma {:induction false} MacroWritesShape(cfg: Config, n: nat)
    ensures |MacroWrites(cfg, n)| == n
    ensures forall i :: 0 <= i < n ==> MacroWrites(cfg, n)[i] == Write(cfg.MacroAddr() + i, 0)
  {
    if n > 0 {
      MacroWritesShape(cfg, n - 1);
    }
  }

  /** Each part of the body stays within its own region. */
  lemma BodyRegions(cfg: Config)
    requires cfg.Sane()
    ensures forall i :: 0 <= i < |LayoutWrites(cfg, cfg.layoutDefault, cfg.layoutSize)| ==>
      cfg.LayoutAddr() <= LayoutWrites(cfg, cfg.layoutDefault, cfg.layoutSize)[i].addr < cfg.LayoutAddr() + cfg.layoutSize
    ensures forall i :: 0 <= i < |KeymapWrites(cfg, cfg.layers)| ==>
      cfg.KeymapAddr() <= KeymapWrites(cfg, cfg.layers)[i].addr < cfg.MacroAddr()
    ensures forall i :: 0 <= i < |MacroWrites(cfg, cfg.MacroSize())| ==>
      cfg.MacroAddr() <= MacroWrites(cfg, cfg.MacroSize())[i].addr <= cfg.maxAddr
  {
    LayoutWritesShape(cfg, cfg.layoutDefault, cfg.layoutSize);
    KeymapContiguous(cfg, cfg.layers);
    MacroWritesShape(cfg, cfg.MacroSize());
  }

  /** The body leaves alone every address outside its regions, the magic included. */
  lemma BodyAddresses(cfg: Config, i: nat)
    requires cfg.Sane() && i < |BodyWrites(cfg)|
    ensures var a := BodyWrites(cfg)[i].addr; a >= cfg.LayoutAddr() && !Foreign(cfg, a)
  {
    BodyRegions(cfg);
    var x, y := LayoutWrites(cfg, cfg.layoutDefault, cfg.layoutSize), KeymapWrites(cfg, cfg.layers);
    var z := MacroWrites(cfg, cfg.MacroSize());
    assert BodyWrites(cfg)[i] ==
      if i < |x| then x[i] else if i < |x| + |y| then y[i - |x|] else z[i - |x| - |y|];
  }

  /** The image after each part of the initialisation. */
  function AfterInvalid(cfg: Config, img: seq<Byte>): seq<Byte>
    requires cfg.Sane()
  {
    Apply(img, MagicWrites(cfg, false))
  }

  function AfterLayout(cfg: Config, img: seq<Byte>): seq<Byte>
    requires cfg.Sane()
  {
    Apply(AfterInvalid(cfg, img), LayoutWrites(cfg, cfg.layoutDefault, cfg.layoutSize))
  }

  function AfterKeymap(cfg: Config, img: seq<Byte>): seq<Byte>
    requires cfg.Sane()
  {
    Apply(AfterLayout(cfg, img), KeymapWrites(cfg, cfg.layers))
  }

  function AfterMacros(cfg: Config, img: seq<Byte>): seq<Byte>
    requires cfg.Sane()
  {
    Apply(AfterKeymap(cfg, img), MacroWrites(cfg, cfg.MacroSize()))
  }

  lemma InitInParts(cfg: Config, img: seq<Byte>)
    requires cfg.Sane()
    ensures Apply(img, InitWrites(cfg)) == Apply(AfterMacros(cfg, img), MagicWrites(cfg, true))
  {
    var w, x := MagicWrites(cfg, false), LayoutWrites(cfg, cfg.layoutDefault, cfg.layoutSize);
    var y, z, e := KeymapWrites(cfg, cfg.layers), MacroWrites(cfg, cfg.MacroSize()), MagicWrites(cfg, true);
    ApplyConcat(img, w, x);
    ApplyConcat(img, w + x, y);
    ApplyConcat(img, w + x + y, z);
    ApplyConcat(img, w + x + y + z, e);
    InitWritesInOrder(cfg);
  }

  lemma InitWritesInOrder(cfg: Config)
    requires cfg.Sane()
    ensures InitWrites(cfg)
      == MagicWrites(cfg, false) + LayoutWrites(cfg, cfg.layoutDefault, cfg.layoutSize) + KeymapWrites(cfg, cfg.layers)
         + MacroWrites(cfg, cfg.MacroSize()) + MagicWrites(cfg, true)
  {
  }

  lemma {:induction false} ResetLayout(cfg: Config, img: seq<Byte>)
    requires cfg.Sane() && cfg.maxAddr < |img|
    ensures HoldsLayout(cfg, Apply(img, InitWrites(cfg)), cfg.layoutDefault)
  {
    InitInParts(cfg, img);
    LayoutWritesHold(cfg, AfterInvalid(cfg, img), cfg.layoutDefault);
    forall j | 0 <= j < cfg.layoutSize
      ensures OptionByte(cfg, Apply(img, InitWrites(cfg)), j) == OptionByte(cfg, AfterLayout(cfg, img), j)
    {
      OptionByteStays(cfg, img, cfg.LayoutAddr() + j);
    }
  }

  lemma OptionByteStays(cfg: Config, img: seq<Byte>, a: nat)
    requires cfg.Sane() && cfg.maxAddr < |img| && cfg.LayoutAddr() <= a < cfg.LayoutAddr() + cfg.layoutSize
    ensures Apply(AfterMacros(cfg, img), MagicWrites(cfg, true))[a] == AfterLayout(cfg, img)[a]
  {
    BodyRegions(cfg);
    ApplyElsewhere(AfterLayout(cfg, img), KeymapWrites(cfg, cfg.layers), a);
    ApplyElsewhere(AfterKeymap(cfg, img), MacroWrites(cfg, cfg.MacroSize()), a);
    ApplyElsewhere(AfterMacros(cfg, img), MagicWrites(cfg, true), a);
  }

  lemma {:induction false} ResetKey(cfg: Config, img: seq<Byte>, l: nat, r: nat, c: nat)
    requires cfg.Sane() && cfg.maxAddr < |img| && InKeymap(cfg, l, r, c)
    ensures HoldsKey(cfg, Apply(img, InitWrites(cfg)), l, r, c)
  {
    var i, a := KeyOffset(cfg, l, r, c), KeyAddress(cfg, l, r, c);
    InitInParts(cfg, img);
    KeyFits(cfg, l, r, c);
    KeymapContiguous(cfg, cfg.layers);
    KeymapHolds(cfg, cfg.layers, l, r, c);
    ApplyDistinct(AfterLayout(cfg, img), KeymapWrites(cfg, cfg.layers), i);
    ApplyDistinct(AfterLayout(cfg, img), KeymapWrites(cfg, cfg.layers), i + 1);
    KeyByteStays(cfg, img, a);
    KeyByteStays(cfg, img, a + 1);
  }

  lemma KeyByteStays(cfg: Config, img: seq<Byte>, a: nat)
    requires cfg.Sane() && cfg.maxAddr < |img| && cfg.KeymapAddr() <= a < cfg.MacroAddr()
    ensures Apply(AfterMacros(cfg, img), MagicWrites(cfg, true))[a] == AfterKeymap(cfg, img)[a]
  {
    BodyRegions(cfg);
    ApplyElsewhere(AfterKeymap(cfg, img), MacroWrites(cfg, cfg.MacroSize()), a);
    ApplyElsewhere(AfterMacros(cfg, img), MagicWrites(cfg, true), a);
  }

  lemma {:induction false} ResetMacroByte(cfg: Config, img: seq<Byte>, a: nat)
    requires cfg.Sane() && cfg.maxAddr < |img| && cfg.MacroAddr() <= a <= cfg.maxAddr
    ensures Apply(img, InitWrites(cfg))[a] == 0
  {
    InitInParts(cfg, img);
    MacroWritesShape(cfg, cfg.MacroSize());
    ApplyDistinct(AfterKeymap(cfg, img), MacroWrites(cfg, cfg.MacroSize()), a - cfg.MacroAddr());
    ApplyElsewhere(AfterMacros(cfg, img), MagicWrites(cfg, true), a);
  }

  lemma {:induction false} ResetIsValid(cfg: Config, img: seq<Byte>)
    requires cfg.Sane() && cfg.maxAddr < |img|
    ensures IsValid(cfg, Apply(img, InitWrites(cfg)))
  {
    InitInParts(cfg, img);
    ApplyDistinct(AfterMacros(cfg, img), MagicWrites(cfg, true), 0);
    ApplyDistinct(AfterMacros(cfg, img), MagicWrites(cfg, true), 1);
    ApplyDistinct(AfterMacros(cfg, img), MagicWrites(cfg, true), 2);
  }

  /** An uncut initialisation resets everything, from whatever image it starts. */
  lemma InitResets(cfg: Config, orig: seq<Byte>, img: seq<Byte>)
    requires cfg.Sane() && cfg.maxAddr < |orig| && SameForeign(cfg, orig, img)
    ensures FullyReset(cfg, orig, Apply(img, InitWrites(cfg)))
  {
    var out := Apply(img, InitWrites(cfg));
    ResetIsValid(cfg, img);
    ResetLayout(cfg, img);
    ReadsLayout(cfg, out, cfg.layoutDefault, cfg.layoutSize);
    forall l, r, c | InKeymap(cfg, l, r, c) ensures HoldsKey(cfg, out, l, r, c) {
      ResetKey(cfg, img, l, r, c);
    }
    forall a | cfg.MacroAddr() <= a <= cfg.maxAddr ensures out[a] == 0 {
      ResetMacroByte(cfg, img, a);
    }
    PrefixForeign(cfg, orig, img, |InitWrites(cfg)|);
    assert InitWrites(cfg)[..|InitWrites(cfg)|] == InitWrites(cfg);
  }

  // -------------------------------------------------------------------- crashes

  /** The writes that are done before power fails, if it fails after `n` of them. */
  function Done(ws: seq<Write>, n: nat): seq<Write> { if n < |ws| then ws[..n] else ws }

  /** What power failure leaves after the first `n` single-byte writes. */
  function Cut(img: seq<Byte>, ws: seq<Write>, n: nat): seq<Byte> { Apply(img, Done(ws, n)) }

  lemma InitAddresses(cfg: Config, i: nat)
    requires cfg.Sane() && i < |InitWrites(cfg)|
    ensures !Foreign(cfg, InitWrites(cfg)[i].addr)
    ensures 3 <= i < 3 + |BodyWrites(cfg)| ==> InitWrites(cfg)[i].addr >= cfg.LayoutAddr()
    ensures i < 3 ==> InitWrites(cfg)[i] == MagicWrites(cfg, false)[i]
    ensures i >= 3 + |BodyWrites(cfg)| ==> InitWrites(cfg)[i] == MagicWrites(cfg, true)[i - 3 - |BodyWrites(cfg)|]
  {
    if 3 <= i < 3 + |BodyWrites(cfg)| {
      BodyAddresses(cfg, i - 3);
      assert InitWrites(cfg)[i] == BodyWrites(cfg)[i - 3];
    }
  }

  lemma PrefixForeign(cfg: Config, orig: seq<Byte>, img: seq<Byte>, n: nat)
    requires cfg.Sane() && SameForeign(cfg, orig, img) && n <= |InitWrites(cfg)|
    ensures SameForeign(cfg, orig, Apply(img, InitWrites(cfg)[..n]))
  {
    var ws := InitWrites(cfg)[..n];
    forall a | 0 <= a < |orig| && Foreign(cfg, a) ensures Apply(img, ws)[a] == orig[a] {
      forall i | 0 <= i < |ws| ensures ws[i].addr != a {
        InitAddresses(cfg, i);
      }
      ApplyElsewhere(img, ws, a);
    }
  }

  /** While it has not reached the last write, an initialisation that has begun is invalid. */
  lemma {:induction false} CutIsInvalid(cfg: Config, img: seq<Byte>, n: nat)
    requires cfg.Sane() && cfg.maxAddr < |img| && 0 < n < |InitWrites(cfg)|
    ensures !IsValid(cfg, Apply(img, InitWrites(cfg)[..n]))
  {
    var ws, b := InitWrites(cfg), |BodyWrites(cfg)|;
    // the magic byte that is still erased after n writes
    var j := if n <= 3 + b then 0 else n - 3 - b;
    ErasedStays(cfg, img, n, j);
    ErasedIsInvalid(cfg, Apply(img, ws[..n]), j);
  }

  lemma ErasedIsInvalid(cfg: Config, img: seq<Byte>, j: nat)
    requires cfg.Sane() && cfg.maxAddr < |img| && j < 3 && img[cfg.magicAddr + j] == 0xFF
    ensures !IsValid(cfg, img)
  {
  }

  lemma {:induction false} ErasedStays(cfg: Config, img: seq<Byte>, n: nat, j: nat)
    requires cfg.Sane() && cfg.maxAddr < |img| && j < 3 && j < n <= |InitWrites(cfg)|
    requires n <= 3 + |BodyWrites(cfg)| + j
    ensures Apply(img, InitWrites(cfg)[..n])[cfg.magicAddr + j] == 0xFF
  {
    var ws := InitWrites(cfg)[..n];
    var p := ws[..n - 1];
    assert p == InitWrites(cfg)[..n - 1];
    InitAddresses(cfg, n - 1);
    if n - 1 == j {
      assert ws[n - 1] == Write(cfg.magicAddr + j, 0xFF);
    } else {
      ErasedStays(cfg, img, n - 1, j);
      assert ws[n - 1].addr != cfg.magicAddr + j;
    }
  }

  /** What may happen to the EEPROM, each time cut by a power failure after some number of writes. */
  datatype Step =
    | PowerUp(cut: nat)
    | FactoryReset(cut: nat)
    | StoreKeycode(layer: nat, row: nat, col: nat, keycode: Word16, cut: nat)
    | StoreLayout(value: Word32, cut: nat)

  predicate Allowed(cfg: Config, step: Step) {
    step.StoreKeycode? ==> InKeymap(cfg, step.layer, step.row, step.col)
  }

  /** What the host's stores write, cut or not. */
  function EditWrites(cfg: Config, step: Step): seq<Write> {
    match step
    case StoreKeycode(l, r, c, keycode, n) => Done(KeyWrites(cfg, l, r, c, keycode), n)
    case StoreLayout(v, n) => Done(LayoutWrites(cfg, v, cfg.layoutSize), n)
    case _ => []
  }

  function AfterStep(cfg: Config, img: seq<Byte>, step: Step): (img': seq<Byte>)
    requires cfg.Sane() && cfg.maxAddr < |img|
    ensures |img'| == |img|
  {
    match step
    case PowerUp(n) => if IsValid(cfg, img) then img else Cut(img, InitWrites(cfg), n)
    case FactoryReset(n) => Cut(img, MagicWrites(cfg, false) + InitWrites(cfg), n)
    case _ => Apply(img, EditWrites(cfg, step))
  }

  function AfterSteps(cfg: Config, img: seq<Byte>, steps: seq<Step>): (img': seq<Byte>)
    requires cfg.Sane() && cfg.maxAddr < |img|
    ensures |img'| == |img|
  {
    if steps == [] then img
    else AfterStep(cfg, AfterSteps(cfg, img, steps[..|steps| - 1]), steps[|steps| - 1])
  }

  /** Fully reset, or marked as invalid. */
  ghost predicate Refreshed(cfg: Config, orig: seq<Byte>, img: seq<Byte>)
    requires cfg.Sane() && cfg.maxAddr < |orig|
  {
    SameForeign(cfg, orig, img) && (IsValid(cfg, img) ==> FullyReset(cfg, orig, img))
  }

  /** An initialisation that has begun leaves the image fully reset or invalid, wherever it was cut. */
  lemma CutInitRefreshes(cfg: Config, orig: seq<Byte>, img: seq<Byte>, n: nat)
    requires cfg.Sane() && cfg.maxAddr < |orig| && SameForeign(cfg, orig, img) && n > 0
    ensures Refreshed(cfg, orig, Cut(img, InitWrites(cfg), n))
  {
    var ws := InitWrites(cfg);
    assert ws[..|ws|] == ws;
    PrefixForeign(cfg, orig, img, if n < |ws| then n else |ws|);
    if n >= |ws| {
      InitResets(cfg, orig, img);
    } else {
      CutIsInvalid(cfg, img, n);
    }
  }

  /** Erasing the magic first changes nothing about that. */
  lemma CutResetRefreshes(cfg: Config, orig: seq<Byte>, img: seq<Byte>, n: nat)
    requires cfg.Sane() && cfg.maxAddr < |orig| && SameForeign(cfg, orig, img) && n > 0
    ensures Refreshed(cfg, orig, Cut(img, MagicWrites(cfg, false) + InitWrites(cfg), n))
  {
    var a, ws := MagicWrites(cfg, false), InitWrites(cfg);
    assert a == ws[..3];
    if n < 3 {
      assert (a + ws)[..n] == ws[..n];
      CutInitRefreshes(cfg, orig, img, n);
    } else {
      var erased := Apply(img, a);
      CutInitRefreshes(cfg, orig, img, 3);
      CutIsInvalid(cfg, img, 3);
      assert Done(a + ws, n) == a + Done(ws, n - 3);
      ApplyConcat(img, a, Done(ws, n - 3));
      if n == 3 {
        assert Done(ws, 0) == [];
      } else {
        CutInitRefreshes(cfg, orig, erased, n - 3);
      }
    }
  }

  // ------------------------------------------------- boots, resets and the host's stores

  /** The step rewrites the image from the start, if not to the end. */
  predicate Restarts(cfg: Config, img: seq<Byte>, step: Step)
    requires cfg.Sane() && cfg.maxAddr < |img|
  {
    (step.PowerUp? && step.cut > 0 && !IsValid(cfg, img)) || (step.FactoryReset? && step.cut > 0)
  }

  /** The image that the last restart left, or the original. */
  function Base(cfg: Config, orig: seq<Byte>, steps: seq<Step>): (img: seq<Byte>)
    requires cfg.Sane() && cfg.maxAddr < |orig|
    ensures |img| == |orig|
  {
    if steps == [] then orig
    else
      var p, last := steps[..|steps| - 1], steps[|steps| - 1];
      if Restarts(cfg, AfterSteps(cfg, orig, p), last) then AfterSteps(cfg, orig, steps) else Base(cfg, orig, p)
  }

  /** All that the host has stored since, cut or not. */
  function Edits(cfg: Config, orig: seq<Byte>, steps: seq<Step>): seq<Write>
    requires cfg.Sane() && cfg.maxAddr < |orig|
  {
    if steps == [] then []
    else
      var p, last := steps[..|steps| - 1], steps[|steps| - 1];
      if Restarts(cfg, AfterSteps(cfg, orig, p), last) then [] else Edits(cfg, orig, p) + EditWrites(cfg, last)
  }

  /** Writes to the options and the keymap only. */
  ghost predicate Inside(cfg: Config, ws: seq<Write>) {
    forall i :: 0 <= i < |ws| ==> ws[i].addr >= cfg.LayoutAddr() && !Foreign(cfg, ws[i].addr)
  }

  lemma EditsInside(cfg: Config, step: Step)
    requires cfg.Sane() && Allowed(cfg, step)
    ensures Inside(cfg, EditWrites(cfg, step))
  {
    match step {
      case StoreKeycode(l, r, c, _, _) => KeyFits(cfg, l, r, c);
      case StoreLayout(v, _) => LayoutWritesShape(cfg, v, cfg.layoutSize);
      case _ =>
    }
  }

  lemma InsideKeeps(cfg: Config, orig: seq<Byte>, img: seq<Byte>, ws: seq<Write>)
    requires cfg.Sane() && cfg.maxAddr < |orig| && SameForeign(cfg, orig, img) && Inside(cfg, ws)
    ensures SameForeign(cfg, orig, Apply(img, ws)) && (IsValid(cfg, Apply(img, ws)) <==> IsValid(cfg, img))
  {
    forall a | 0 <= a < |orig| && Foreign(cfg, a) ensures Apply(img, ws)[a] == orig[a] {
      ApplyElsewhere(img, ws, a);
    }
    ApplyElsewhere(img, ws, cfg.magicAddr);
    ApplyElsewhere(img, ws, cfg.magicAddr + 1);
    ApplyElsewhere(img, ws, cfg.magicAddr + 2);
  }

  /** The image is the base with the edits on top; if it is valid, the base is the original or fully reset. */
  ghost predicate EditedFrom(cfg: Config, orig: seq<Byte>, base: seq<Byte>, edits: seq<Write>, img: seq<Byte>)
    requires cfg.Sane() && cfg.maxAddr < |orig|
  {
    && SameForeign(cfg, orig, base) && SameForeign(cfg, orig, img)
    && img == Apply(base, edits) && Inside(cfg, edits)
    && (IsValid(cfg, img) <==> IsValid(cfg, base))
    && (IsValid(cfg, img) ==> base == orig || FullyReset(cfg, orig, base))
  }

  lemma RestartIsConsistent(cfg: Config, orig: seq<Byte>, img: seq<Byte>, step: Step)
    requires cfg.Sane() && cfg.maxAddr < |orig| && SameForeign(cfg, orig, img) && Restarts(cfg, img, step)
    ensures var img' := AfterStep(cfg, img, step); EditedFrom(cfg, orig, img', [], img')
  {
    if step.PowerUp? {
      CutInitRefreshes(cfg, orig, img, step.cut);
    } else {
      CutResetRefreshes(cfg, orig, img, step.cut);
    }
  }

  lemma EditIsConsistent(cfg: Config, orig: seq<Byte>, base: seq<Byte>, edits: seq<Write>, img: seq<Byte>, ws: seq<Write>)
    requires cfg.Sane() && cfg.maxAddr < |orig| && EditedFrom(cfg, orig, base, edits, img) && Inside(cfg, ws)
    ensures EditedFrom(cfg, orig, base, edits + ws, Apply(img, ws))
  {
    InsideKeeps(cfg, orig, img, ws);
    ApplyConcat(base, edits, ws);
  }

  /**
   Crash consistency: over any history of boots, resets and stores of keycodes and layout
   options, each cut after any number of single-byte writes, the EEPROM counts as valid
   only if it is the untouched original or fully reset but for what the host has stored
   since; what VIA does not own is never changed.
   */
  lemma {:induction false} HistoryIsConsistent(cfg: Config, orig: seq<Byte>, steps: seq<Step>)
    requires cfg.Sane() && cfg.maxAddr < |orig| && forall i :: 0 <= i < |steps| ==> Allowed(cfg, steps[i])
    ensures EditedFrom(cfg, orig, Base(cfg, orig, steps), Edits(cfg, orig, steps), AfterSteps(cfg, orig, steps))
  {
    if steps != [] {
      var p, last := steps[..|steps| - 1], steps[|steps| - 1];
      HistoryIsConsistent(cfg, orig, p);
      var img := AfterSteps(cfg, orig, p);
      if Restarts(cfg, img, last) {
        RestartIsConsistent(cfg, orig, img, last);
      } else {
        NoRestart(cfg, img, last);
        EditsInside(cfg, last);
        EditIsConsistent(cfg, orig, Base(cfg, orig, p), Edits(cfg, orig, p), img, EditWrites(cfg, last));
      }
    }
  }

  lemma NoRestart(cfg: Config, img: seq<Byte>, step: Step)
    requires cfg.Sane() && cfg.maxAddr < |img| && !Restarts(cfg, img, step)
    ensures AfterStep(cfg, img, step) == Apply(img, EditWrites(cfg, step))
  {
    if step.PowerUp? && !IsValid(cfg, img) {
      assert Done(InitWrites(cfg), 0) == [];
    } else if step.FactoryReset? {
      assert Done(MagicWrites(cfg, false) + InitWrites(cfg), 0) == [];
    }
  }

  /** Without stores, a valid image is the untouched original or fully reset. */
  lemma BootsAreConsistent(cfg: Config, orig: seq<Byte>, boots: seq<Step>)
    requires cfg.Sane() && cfg.maxAddr < |orig|
    requires forall i :: 0 <= i < |boots| ==> boots[i].PowerUp? || boots[i].FactoryReset?
    ensures var img := AfterSteps(cfg, orig, boots);
      SameForeign(cfg, orig, img) && (IsValid(cfg, img) ==> img == orig || FullyReset(cfg, orig, img))
  {
    HistoryIsConsistent(cfg, orig, boots);
    BootsStoreNothing(cfg, orig, boots);
  }

  lemma {:induction false} BootsStoreNothing(cfg: Config, orig: seq<Byte>, boots: seq<Step>)
    requires cfg.Sane() && cfg.maxAddr < |orig|
    requires forall i :: 0 <= i < |boots| ==> boots[i].PowerUp? || boots[i].FactoryReset?
    ensures Edits(cfg, orig, boots) == []
  {
    if boots != [] {
      BootsStoreNothing(cfg, orig, boots[..|boots| - 1]);
    }
  }

  /** And the first boot that is not cut always leaves a usable EEPROM. */
  lemma UncutBootRecovers(cfg: Config, orig: seq<Byte>, steps: seq<Step>)
    requires cfg.Sane() && cfg.maxAddr < |orig| && forall i :: 0 <= i < |steps| ==> Allowed(cfg, steps[i])
    ensures var img := AfterSteps(cfg, orig, steps);
      var img' := AfterStep(cfg, img, PowerUp(|InitWrites(cfg)|));
      IsValid(cfg, img') && if IsValid(cfg, img) then img' == img else FullyReset(cfg, orig, img')
  {
    HistoryIsConsistent(cfg, orig, steps);
    InitResets(cfg, orig, AfterSteps(cfg, orig, steps));
  }
}
