/** Packed little-endian records: how a struct of unsigned fields lies in a file, and back. */
module ByteCodec {
  import opened Words

  type byte = u8

  function Zeros(n: nat): (z: seq<byte>)
    ensures |z| == n && forall i :: 0 <= i < n ==> z[i] == 0
  {
    seq(n, _ => 0)
  }

  /** The number of values a field of `width` bytes can hold. */
  function Range(width: nat): (n: nat)
    ensures n >= 1
  {
    if width == 0 then 1 else 0x100 * Range(width - 1)
  }

  /** The `width` low-order bytes of `n`, least significant first. */
  function LittleEndian(n: nat, width: nat): (b: seq<byte>)
    ensures |b| == width
  {
    if width == 0 then [] else [n % 0x100] + LittleEndian(n / 0x100, width - 1)
  }

  function FromLittleEndian(b: seq<byte>): (n: nat)
    ensures n < Range(|b|)
  {
    if b == [] then 0 else b[0] + 0x100 * FromLittleEndian(b[1..])
  }

  lemma {:induction false} LittleEndianRoundTrip(n: nat, width: nat)
    requires n < Range(width)
    ensures FromLittleEndian(LittleEndian(n, width)) == n
  {
    if width != 0 {
      LittleEndianRoundTrip(n / 0x100, width - 1);
      assert LittleEndian(n, width)[1..] == LittleEndian(n / 0x100, width - 1);
    }
  }

  lemma LowDigit(low: byte, n: nat)
    ensures (low + 0x100 * n) % 0x100 == low && (low + 0x100 * n) / 0x100 == n
  {
  }

  lemma {:induction false} FromLittleEndianRoundTrip(b: seq<byte>)
    ensures LittleEndian(FromLittleEndian(b), |b|) == b
  {
    if b != [] {
      var n := FromLittleEndian(b[1..]);
      FromLittleEndianRoundTrip(b[1..]);
      hide Range;
      LowDigit(b[0], n);
      assert b == [b[0]] + b[1..];
    }
  }

  lemma DivideTwice(n: nat, d: nat)
    requires d > 0
    ensures n / 0x100 / d == n / (0x100 * d)
  {
    var q, r := n / 0x100 / d, n / 0x100 % d;
    assert n == 0x100 * (q * d + r) + n % 0x100;
    assert 0x100 * (q * d) == q * (0x100 * d);
    DivisionIs(n, 0x100 * d, q, 0x100 * r + n % 0x100);
  }

  lemma DivisionIs(n: nat, d: nat, q: nat, r: nat)
    requires r < d && n == q * d + r
    ensures n / d == q
  {
    var e := n / d - q;
    assert (n / d) * d == q * d + e * d;
    NoSmallMultiple(e, d);
  }

  lemma NoSmallMultiple(e: int, d: nat)
    requires 0 - d < e * d < d
    ensures e == 0
  {
    MultiplesGrow(e, d);
  }

  lemma MultiplesGrow(e: int, d: nat)
    ensures e >= 1 ==> e * d >= d
    ensures e <= -1 ==> e * d <= 0 - d
  {
    if e >= 1 {
      assert (e - 1) * d >= 0;
    } else if e <= -1 {
      assert (-e - 1) * d >= 0;
    }
  }

  /** `width` bytes of b from `offset` on are the digits of `n` to the base 256, the lowest first. */
  predicate HoldsAt(b: seq<byte>, offset: nat, width: nat, n: nat) {
    offset + width <= |b| && forall i :: 0 <= i < width ==> b[offset + i] == n / Range(i) % 0x100
  }

  lemma {:induction false} LittleEndianAt(n: nat, width: nat, i: nat)
    requires i < width
    ensures LittleEndian(n, width)[i] == n / Range(i) % 0x100
  {
    if i > 0 {
      LittleEndianAt(n / 0x100, width - 1, i - 1);
      DivideTwice(n, Range(i - 1));
    }
  }

  lemma LittleEndianHolds(b: seq<byte>, offset: nat, width: nat, n: nat)
    requires offset + width <= |b| && b[offset..offset + width] == LittleEndian(n, width)
    ensures HoldsAt(b, offset, width, n)
  {
    forall i | 0 <= i < width ensures b[offset + i] == n / Range(i) % 0x100 {
      assert b[offset + i] == b[offset..offset + width][i];
      LittleEndianAt(n, width, i);
    }
    hide LittleEndian, Range;
  }

  /** A field of a file reads as n exactly when its bytes are n's digits. */
  lemma ReadsAsHeld(b: seq<byte>, offset: nat, width: nat, n: nat)
    requires offset + width <= |b| && n < Range(width)
    ensures FromLittleEndian(b[offset..offset + width]) == n <==> HoldsAt(b, offset, width, n)
  {
    var field := b[offset..offset + width];
    hide LittleEndian, FromLittleEndian, Range;
    if HoldsAt(b, offset, width, n) {
      forall i | 0 <= i < width ensures field[i] == LittleEndian(n, width)[i] {
        assert field[i] == b[offset + i];
        LittleEndianAt(n, width, i);
      }
      assert field == LittleEndian(n, width);
      LittleEndianRoundTrip(n, width);
    } else if FromLittleEndian(field) == n {
      FromLittleEndianRoundTrip(field);
      LittleEndianHolds(b, offset, width, n);
      assert false;
    }
  }

  function Total(widths: seq<nat>): nat {
    if widths == [] then 0 else widths[0] + Total(widths[1..])
  }

  lemma {:induction false} TotalConcat(a: seq<nat>, b: seq<nat>)
    ensures Total(a + b) == Total(a) + Total(b)
  {
    if a == [] {
      assert a + b == b;
    } else {
      assert (a + b)[1..] == a[1..] + b;
      TotalConcat(a[1..], b);
    }
  }

  /** Every value fits its field. */
  predicate Fits(widths: seq<nat>, values: seq<nat>) {
    |widths| == |values| && forall i :: 0 <= i < |values| ==> values[i] < Range(widths[i])
  }

  /** The packed image of a struct whose fields have the given widths. */
  function Pack(widths: seq<nat>, values: seq<nat>): (b: seq<byte>)
    requires |widths| == |values|
    ensures |b| == Total(widths)
  {
    if widths == [] then [] else LittleEndian(values[0], widths[0]) + Pack(widths[1..], values[1..])
  }

  function Unpack(widths: seq<nat>, b: seq<byte>): (values: seq<nat>)
    requires |b| == Total(widths)
    ensures Fits(widths, values)
  {
    if widths == [] then [] else
      [FromLittleEndian(b[..widths[0]])] + Unpack(widths[1..], b[widths[0]..])
  }

  /** Reading a packed struct back gives the fields that were written. */
  lemma {:induction false} UnpackPack(widths: seq<nat>, values: seq<nat>)
    requires Fits(widths, values)
    ensures Unpack(widths, Pack(widths, values)) == values
  {
    if widths != [] {
      var b := Pack(widths, values);
      LittleEndianRoundTrip(values[0], widths[0]);
      UnpackPack(widths[1..], values[1..]);
      assert b[..widths[0]] == LittleEndian(values[0], widths[0]);
      assert b[widths[0]..] == Pack(widths[1..], values[1..]);
    }
  }

  lemma TotalSplits(widths: seq<nat>, k: nat)
    requires k < |widths|
    ensures Total(widths[..k]) + widths[k] == Total(widths[..k + 1]) <= Total(widths)
  {
    hide *;
    TotalOne(widths[k]);
    TotalConcat(widths[..k], [widths[k]]);
    assert widths[..k + 1] == widths[..k] + [widths[k]];
    TotalConcat(widths[..k + 1], widths[k + 1..]);
    assert widths == widths[..k + 1] + widths[k + 1..];
  }

  lemma TotalOne(width: nat)
    ensures Total([width]) == width
  {
  }

  lemma NextOffset(widths: seq<nat>, k: nat, offset: nat)
    requires k < |widths| && (k == offset == 0 || Total(widths[..k]) == offset)
    ensures Total(widths[..k]) == offset && Total(widths[..k + 1]) == offset + widths[k]
  {
    TotalSplits(widths, k);
  }

  /** Each field of a packed struct lies right behind the fields before it. */
  lemma {:induction false} PackAt(widths: seq<nat>, values: seq<nat>, k: nat)
    requires |widths| == |values| && k < |widths|
    ensures Total(widths[..k]) + widths[k] <= Total(widths)
    ensures Pack(widths, values)[Total(widths[..k])..Total(widths[..k]) + widths[k]] == LittleEndian(values[k],
                                                                                                     widths[k])
  {
    hide *;
    TotalSplits(widths, k);
    if k == 0 {
      PackFirst(widths, values);
      NextOffset(widths, 0, 0);
    } else {
      PackAt(widths[1..], values[1..], k - 1);
      PackShift(widths, values, k);
    }
  }

  lemma PackShift(widths: seq<nat>, values: seq<nat>, k: nat)
    requires |widths| == |values| && 0 < k < |widths|
    requires Total(widths[..k]) + widths[k] <= Total(widths)
    requires Total(widths[1..][..k - 1]) + widths[k] <= Total(widths[1..])
    ensures Pack(widths, values)[Total(widths[..k])..Total(widths[..k]) + widths[k]]
         == Pack(widths[1..], values[1..])
              [Total(widths[1..][..k - 1])..Total(widths[1..][..k - 1]) + widths[k]]
  {
    hide *;
    TotalTail(widths, k);
    PackFirst(widths, values);
    DropSlice(Pack(widths, values), widths[0], Total(widths[1..][..k - 1]), widths[k]);
  }

  lemma TotalTail(widths: seq<nat>, k: nat)
    requires 0 < k < |widths|
    ensures Total(widths[..k]) == widths[0] + Total(widths[1..][..k - 1])
  {
    assert widths[..k][1..] == widths[1..][..k - 1];
  }

  lemma PackFirst(widths: seq<nat>, values: seq<nat>)
    requires |widths| == |values| && widths != []
    ensures widths[0] <= Total(widths) && Pack(widths, values)[..widths[0]] == LittleEndian(values[0], widths[0])
    ensures Pack(widths, values)[widths[0]..] == Pack(widths[1..], values[1..])
  {
    hide LittleEndian;
  }

  lemma DropSlice(b: seq<byte>, drop: nat, from: nat, width: nat)
    requires drop + from + width <= |b|
    ensures b[drop..][from..from + width] == b[drop + from..drop + from + width]
  {
  }

  lemma {:induction false} UnpackAt(widths: seq<nat>, b: seq<byte>, k: nat)
    requires |b| == Total(widths) && k < |widths|
    ensures Total(widths[..k]) + widths[k] <= Total(widths)
    ensures Unpack(widths, b)[k] == FromLittleEndian(b[Total(widths[..k])..Total(widths[..k]) + widths[k]])
  {
    hide *;
    TotalSplits(widths, k);
    UnpackStep(widths, b);
    if k == 0 {
      NextOffset(widths, 0, 0);
    } else {
      TotalTail(widths, k);
      UnpackAt(widths[1..], b[widths[0]..], k - 1);
      DropSlice(b, widths[0], Total(widths[1..][..k - 1]), widths[k]);
    }
  }

  lemma UnpackStep(widths: seq<nat>, b: seq<byte>)
    requires |b| == Total(widths) && widths != []
    ensures widths[0] <= |b| && |b[widths[0]..]| == Total(widths[1..])
    ensures Unpack(widths, b) == [FromLittleEndian(b[..widths[0]])] + Unpack(widths[1..], b[widths[0]..])
  {
  }

  /** A field packed behind `offset` bytes of others is held there. */
  lemma PackHolds(widths: seq<nat>, values: seq<nat>, k: nat, offset: nat)
    requires |widths| == |values| && k < |widths| && offset == Total(widths[..k])
    ensures HoldsAt(Pack(widths, values), offset, widths[k], values[k])
  {
    hide Pack, LittleEndian, Total, HoldsAt;
    PackAt(widths, values, k);
    LittleEndianHolds(Pack(widths, values), offset, widths[k], values[k]);
  }

  lemma UnpackReads(widths: seq<nat>, b: seq<byte>, k: nat, offset: nat)
    requires |b| == Total(widths) && k < |widths| && offset == Total(widths[..k])
    ensures HoldsAt(b, offset, widths[k], Unpack(widths, b)[k])
  {
    hide Unpack, FromLittleEndian, Total, HoldsAt;
    UnpackAt(widths, b, k);
    ReadsAsHeld(b, offset, widths[k], Unpack(widths, b)[k]);
  }

  lemma Ranges()
    ensures Range(1) == 0x100 && Range(2) == 0x1_0000 && Range(4) == 0x1_0000_0000
    ensures Range(8) == TWO_TO_64
  {
    assert Range(3) == 0x100 * Range(2);
    assert Range(5) == 0x100 * Range(4);
    assert Range(6) == 0x100 * Range(5);
    assert Range(7) == 0x100 * Range(6);
  }

  lemma TwoBytes(b: seq<byte>, offset: nat, n: u16)
    requires HoldsAt(b, offset, 2, n)
    ensures n == b[offset] as int + 0x100 * b[offset + 1] as int
  {
    assert Range(0) == 1 && Range(1) == 0x100;
    assert b[offset + 0] == n / Range(0) % 0x100 && b[offset + 1] == n / Range(1) % 0x100;
  }

  lemma FourBytes(b: seq<byte>, offset: nat, n: u32)
    requires HoldsAt(b, offset, 4, n)
    ensures n == b[offset] as int + 0x100 * b[offset + 1] as int + 0x1_0000 * b[offset + 2] as int
                 + 0x100_0000 * b[offset + 3] as int
  {
    assert Range(0) == 1 && Range(1) == 0x100 && Range(2) == 0x1_0000 && Range(3) == 0x100_0000;
    assert b[offset + 0] == n / Range(0) % 0x100 && b[offset + 1] == n / Range(1) % 0x100;
    assert b[offset + 2] == n / Range(2) % 0x100 && b[offset + 3] == n / Range(3) % 0x100;
    hide Range;
    Digits(n);
  }

  lemma Digits(n: u32)
    ensures n == n % 0x100 + 0x100 * (n / 0x100 % 0x100) + 0x1_0000 * (n / 0x1_0000 % 0x100)
                 + 0x100_0000 * (n / 0x100_0000 % 0x100)
  {
    DivideTwice(n, 0x100);
    DivideTwice(n, 0x1_0000);
    assert n / 0x100 == n / 0x1_0000 * 0x100 + n / 0x100 % 0x100;
    assert n / 0x1_0000 == n / 0x100_0000 * 0x100 + n / 0x1_0000 % 0x100;
  }

  /** A number of 8 bytes at the front is `wanted` exactly when these are its bytes. */
  lemma SameEightBytes(b: seq<byte>, n: u64, wanted: u64, eight: seq<byte>)
    requires |eight| == 8 && HoldsAt(b, 0, 8, n)
    requires forall i :: 0 <= i < 8 ==> wanted / Range(i) % 0x100 == eight[i]
    ensures n == wanted <==> b[..8] == eight
  {
    Ranges();
    hide Range, FromLittleEndian;
    ReadsAsHeld(b, 0, 8, n);
    ReadsAsHeld(b, 0, 8, wanted);
    if b[..8] == eight {
      assert forall i :: 0 <= i < 8 ==> b[0 + i] == b[..8][i];
    }
    if n == wanted {
      assert forall i :: 0 <= i < 8 ==> b[0 + i] == eight[i];
      assert b[..8] == eight;
    }
  }
}
