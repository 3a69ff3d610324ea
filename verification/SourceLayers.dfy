/**
 The bit-sliced source-layer cache of quantum/action_layer.c: bit b of the layer of
 key number n is bit n % 8 of the byte in row n / 8, column b.
 */
module SourceLayers {
  import opened KeyEvents

  // --------------------------------------------------------------- single bits

  function Mask(i: nat): bv8
    requires i < 8
  {
    match i
    case 0 => 0x01 case 1 => 0x02 case 2 => 0x04 case 3 => 0x08
    case 4 => 0x10 case 5 => 0x20 case 6 => 0x40 case 7 => 0x80
  }

  predicate Bit(c: bv8, i: nat)
    requires i < 8
  {
    c & Mask(i) != 0
  }

  /** `c ^= (-v ^ c) & (1 << i)`: the masked-merge idiom. */
  function Merge(c: bv8, v: bool, i: nat): bv8
    requires i < 8
  {
    c ^ (((if v then 0xFF else 0x00) ^ c) & Mask(i))
  }

  lemma MergeMasked(c: bv8, v: bv8, m: bv8, m2: bv8)
    requires m & m2 == 0
    ensures (c ^ ((v ^ c) & m)) & m == v & m
    ensures (c ^ ((v ^ c) & m)) & m2 == c & m2
  {
  }

  /** The merge sets exactly bit `i`. */
  lemma MergeSetsBit(c: bv8, v: bool, i: nat, j: nat)
    requires i < 8 && j < 8
    ensures Bit(Merge(c, v, i), j) == if i == j then v else Bit(c, j)
  {
    var ones: bv8, m: bv8, m2: bv8 := if v then 0xFF else 0x00, Mask(i), Mask(j);
    if i == j {
      MergeMasked(c, ones, m, 0);
    } else {
      MergeMasked(c, ones, m, m2);
    }
  }

  // ------------------------------------------------------ layers as bit strings

  function Pow2(n: nat): nat { if n == 0 then 1 else 2 * Pow2(n - 1) }

  /** `(layer & (1 << b)) != 0`. */
  predicate LayerBit(layer: nat, b: nat) {
    if b == 0 then layer % 2 == 1 else LayerBit(layer / 2, b - 1)
  }

  /** The number whose bit b is bs[b]. */
  function Value(bs: seq<bool>): nat {
    if bs == [] then 0 else (if bs[0] then 1 else 0) + 2 * Value(bs[1..])
  }

  /** Or-ing in the next higher bit. */
  lemma {:induction false} ValueSnoc(bs: seq<bool>, v: bool)
    ensures Value(bs + [v]) == Value(bs) + if v then Pow2(|bs|) else 0
  {
    if bs == [] {
      assert [v][1..] == [];
    } else {
      assert (bs + [v])[1..] == bs[1..] + [v];
      ValueSnoc(bs[1..], v);
    }
  }

  /** A layer that fits in |bs| bits is the value of its bits. */
  lemma {:induction false} ValueOfBits(layer: nat, bs: seq<bool>)
    requires layer < Pow2(|bs|)
    requires forall b :: 0 <= b < |bs| ==> (bs[b] <==> LayerBit(layer, b))
    ensures Value(bs) == layer
  {
    if bs != [] {
      forall b | 0 <= b < |bs| - 1 ensures bs[1..][b] <==> LayerBit(layer / 2, b) {
        assert LayerBit(layer, b + 1) == LayerBit(layer / 2, b);
      }
      ValueOfBits(layer / 2, bs[1..]);
    }
  }

  lemma {:induction false} ZeroHasNoBits(b: nat)
    ensures !LayerBit(0, b) && Pow2(b) > 0
  {
    if b > 0 {
      ZeroHasNoBits(b - 1);
    }
  }

  lemma RowsApart(cols: nat, r: nat, d: nat)
    ensures (r + d) * cols == r * cols + d * cols
    ensures d > 0 ==> d * cols >= cols
  {
    if d > 0 {
      assert d * cols == (d - 1) * cols + cols;
    }
  }

  lemma KeyNumberInjective(cols: nat, r: nat, c: nat, r': nat, c': nat)
    requires c < cols && c' < cols && r * cols + c == r' * cols + c'
    ensures r == r' && c == c'
  {
    if r < r' {
      RowsApart(cols, r, r' - r);
    } else if r' < r {
      RowsApart(cols, r', r - r');
    }
  }

  lemma KeyNumberInRange(rows: nat, cols: nat, r: nat, c: nat)
    requires r < rows && c < cols
    ensures r * cols + c < rows * cols
  {
    assert (rows - 1) * cols >= r * cols;
    assert rows * cols == (rows - 1) * cols + cols;
  }

  // ---------------------------------------------------------------------- cache

  class SourceLayerCache {
    const rows: nat
    const cols: nat
    const bits: nat
    const cells: array2<bv8>
    /** The layer last stored for each key. */
    ghost var contents: map<KeyPos, nat>

    predicate InMatrix(key: KeyPos) { key.row < rows && key.col < cols }

    function KeyNumber(key: KeyPos): (n: nat)
      requires InMatrix(key)
      ensures n < rows * cols
    {
      KeyNumberInRange(rows, cols, key.row, key.col);
      key.row * cols + key.col
    }

    ghost predicate Shaped()
    {
      && rows * cols <= 256 && cells.Length0 == (rows * cols + 7) / 8 && cells.Length1 == bits
    }

    ghost function BitsAt(n: nat): seq<bool>
      requires Shaped() && n < rows * cols
      reads cells
    {
      seq(bits, b requires 0 <= b < bits reads cells => Bit(cells[n / 8, b], n % 8))
    }

    function Cached(key: KeyPos, m: map<KeyPos, nat>): nat { if key in m then m[key] else 0 }

    /** What the cells hold is what was last stored, key by key. */
    ghost predicate Valid()
      reads this, cells
    {
      && Shaped()
      && forall key :: InMatrix(key) ==> Value(BitsAt(KeyNumber(key))) == Cached(key, contents)
    }

    lemma {:induction false} ZerosAt(n: nat)
      requires Shaped() && n < rows * cols
      requires forall r, b :: 0 <= r < cells.Length0 && 0 <= b < bits ==> cells[r, b] == 0
      ensures Value(BitsAt(n)) == 0
    {
      ZeroHasNoBits(bits);
      forall b | 0 <= b < bits ensures !LayerBit(0, b) {
        ZeroHasNoBits(b);
      }
      ValueOfBits(0, BitsAt(n));
    }

    constructor (rows: nat, cols: nat, bits: nat)
      requires rows * cols <= 256
      ensures Valid() && fresh(cells) && contents == map[]
      ensures this.rows == rows && this.cols == cols && this.bits == bits
    {
      this.rows, this.cols, this.bits := rows, cols, bits;
      cells := new bv8[(rows * cols + 7) / 8, bits]((i, j) => 0);
      contents := map[];
      new;
      forall key | InMatrix(key) ensures Value(BitsAt(KeyNumber(key))) == 0 {
        ZerosAt(KeyNumber(key));
      }
    }

    /** update_source_layers_cache */
    method Update(key: KeyPos, layer: nat)
      requires Valid() && InMatrix(key) && layer < Pow2(bits)
      modifies this, cells
      ensures Valid() && contents == old(contents)[key := layer]
    {
      var keyNumber := KeyNumber(key);
      var storageRow, storageBit := keyNumber / 8, keyNumber % 8;
      for bitNumber := 0 to bits
        invariant contents == old(contents)
        invariant forall r, b :: 0 <= r < cells.Length0 && 0 <= b < bits ==>
          cells[r, b] == if r == storageRow && b < bitNumber
                         then Merge(old(cells[r, b]), LayerBit(layer, b), storageBit)
                         else old(cells[r, b])
      {
        cells[storageRow, bitNumber] := Merge(cells[storageRow, bitNumber], LayerBit(layer, bitNumber), storageBit);
      }
      contents := contents[key := layer];
      forall key' | InMatrix(key')
        ensures Value(BitsAt(KeyNumber(key'))) == Cached(key', contents)
      {
        var n := KeyNumber(key');
        forall b | 0 <= b < bits
          ensures BitsAt(n)[b] == if n == keyNumber then LayerBit(layer, b) else old(BitsAt(n))[b]
        {
          MergeSetsBit(old(cells[storageRow, b]), LayerBit(layer, b), storageBit, n % 8);
        }
        if n == keyNumber {
          KeyNumberInjective(cols, key'.row, key'.col, key.row, key.col);
          ValueOfBits(layer, BitsAt(n));
        } else {
          assert BitsAt(n) == old(BitsAt(n));
        }
      }
    }

    /** read_source_layers_cache */
    method Read(key: KeyPos) returns (layer: nat)
      requires Valid() && InMatrix(key)
      ensures layer == Cached(key, contents)
    {
      var keyNumber := KeyNumber(key);
      var storageRow, storageBit := keyNumber / 8, keyNumber % 8;
      layer := 0;
      for bitNumber := 0 to bits
        invariant layer == Value(BitsAt(keyNumber)[..bitNumber])
      {
        var v := Bit(cells[storageRow, bitNumber], storageBit);
        ValueSnoc(BitsAt(keyNumber)[..bitNumber], v);
        assert BitsAt(keyNumber)[..bitNumber + 1] == BitsAt(keyNumber)[..bitNumber] + [v];
        layer := layer + if v then Pow2(bitNumber) else 0;
      }
      assert BitsAt(keyNumber)[..bits] == BitsAt(keyNumber);
    }
  }
}
