/**
 The 32-bit dwords every trace buffer is made of: the bit-packed record marker and the
 packing of text bytes into dwords (least significant byte first).
 */
module Words {

  type Word = x: int | 0 <= x < 0x1_0000_0000

  type Byte = x: int | 0 <= x < 0x100

  /** Bitwise or of two non-negative integers, bit by bit from the least significant end. */
  function Or(a: nat, b: nat): nat
    decreases a + b
  {
    if a == 0 && b == 0 then 0
    else 2 * Or(a / 2, b / 2) + (if a % 2 == 1 || b % 2 == 1 then 1 else 0)
  }

  function Pow2(k: nat): (p: nat)
    ensures p > 0
  {
    if k == 0 then 1 else 2 * Pow2(k - 1)
  }

  lemma OrZero(a: nat)
    ensures Or(0, a) == a
  {
    if a > 0 {
      OrZero(a / 2);
    }
  }

  /** A field shifted above all the bits of `low` is added by the or, without overlap. */
  lemma {:induction false} OrDisjoint(low: nat, high: nat, k: nat)
    requires low < Pow2(k)
    ensures Or(low, high * Pow2(k)) == low + high * Pow2(k)
  {
    if k == 0 {
      OrZero(high);
    } else {
      var half := high * Pow2(k - 1);
      assert high * Pow2(k) == 2 * half;
      OrDisjoint(low / 2, high, k - 1);
    }
  }

  /** Total length in dwords, number count and identifier, or-ed into one marker. */
  function PackedMarker(length: nat, nrNumbers: Byte, id: Byte): nat {
    Or(Or(length, nrNumbers * 0x1_0000), id * 0x100_0000)
  }

  /** The marker as a sum of its shifted fields. */
  function Marker(length: nat, nrNumbers: Byte, id: Byte): Word
    requires length < 0x1_0000
  {
    length + nrNumbers * 0x1_0000 + id * 0x100_0000
  }

  function LengthOf(marker: Word): nat { marker % 0x1_0000 }

  function NrNumbersOf(marker: Word): Byte { marker / 0x1_0000 % 0x100 }

  function IdOf(marker: Word): Byte { marker / 0x100_0000 }

  lemma Pow2Values()
    ensures Pow2(16) == 0x1_0000
    ensures Pow2(24) == 0x100_0000
  {
    assert Pow2(8) == 0x100;
    assert Pow2(12) == 0x1000;
    assert Pow2(20) == 0x10_0000;
  }

  /** The or of the three fields is their sum: no two of them overlap. */
  lemma PackedMarkerIsMarker(length: nat, nrNumbers: Byte, id: Byte)
    requires length < 0x1_0000
    ensures PackedMarker(length, nrNumbers, id) == Marker(length, nrNumbers, id)
  {
    Pow2Values();
    OrDisjoint(length, nrNumbers, 16);
    OrDisjoint(length + nrNumbers * 0x1_0000, id, 24);
  }

  lemma RemainderAt(low: nat, high: nat, d: nat)
    requires low < d
    ensures (low + high * d) / d == high && (low + high * d) % d == low
  {
    var n := low + high * d;
    var q, r := n / d, n % d;
    assert n == d * q + r;
    assert d * (high - q) == r - low;
    assert high - q >= 1 ==> d * (high - q) >= d;
    assert high - q <= -1 ==> d * (high - q) <= 0 - d;
  }

  /** The three bit fields unpack without overlap. */
  lemma MarkerFields(length: nat, nrNumbers: Byte, id: Byte)
    requires length < 0x1_0000
    ensures LengthOf(Marker(length, nrNumbers, id)) == length
    ensures NrNumbersOf(Marker(length, nrNumbers, id)) == nrNumbers
    ensures IdOf(Marker(length, nrNumbers, id)) == id
  {
    RemainderAt(length, nrNumbers + id * 0x100, 0x1_0000);
    RemainderAt(nrNumbers, id, 0x100);
    RemainderAt(length + nrNumbers * 0x1_0000, id, 0x100_0000);
  }

  /** The length survives packing exactly when it fits its 16 bits. */
  lemma LengthSurvives(length: nat, nrNumbers: Byte, id: Byte)
    requires length < 0x1_0000_0000 && PackedMarker(length, nrNumbers, id) < 0x1_0000_0000
    ensures LengthOf(PackedMarker(length, nrNumbers, id)) == length <==> length < 0x1_0000
  {
    if length < 0x1_0000 {
      PackedMarkerIsMarker(length, nrNumbers, id);
      MarkerFields(length, nrNumbers, id);
    }
  }

  function OctetAt(w: Word, k: nat): char
    requires k < 4
  {
    (if k == 0 then w % 0x100
     else if k == 1 then w / 0x100 % 0x100
     else if k == 2 then w / 0x1_0000 % 0x100
     else w / 0x100_0000) as char
  }

  predicate IsOctets(text: string) {
    forall i :: 0 <= i < |text| ==> text[i] as int < 0x100
  }

  function Dword(a: char, b: char, c: char, d: char): Word
    requires a as int < 0x100 && b as int < 0x100 && c as int < 0x100 && d as int < 0x100
  {
    a as int + 0x100 * b as int + 0x1_0000 * c as int + 0x100_0000 * d as int
  }

  lemma DwordOctets(a: char, b: char, c: char, d: char)
    requires a as int < 0x100 && b as int < 0x100 && c as int < 0x100 && d as int < 0x100
    ensures var w := Dword(a, b, c, d);
      OctetAt(w, 0) == a && OctetAt(w, 1) == b && OctetAt(w, 2) == c && OctetAt(w, 3) == d
  {
    RemainderAt(a as int, b as int + 0x100 * c as int + 0x1_0000 * d as int, 0x100);
    RemainderAt(b as int, c as int + 0x100 * d as int, 0x100);
    RemainderAt(a as int + 0x100 * b as int, c as int + 0x100 * d as int, 0x1_0000);
    RemainderAt(c as int, d as int, 0x100);
    RemainderAt(a as int + 0x100 * b as int + 0x1_0000 * c as int, d as int, 0x100_0000);
  }

  function Zeros(n: nat): (z: string)
    ensures |z| == n
    ensures forall i :: 0 <= i < n ==> z[i] == '\0'
  {
    seq(n, _ => '\0')
  }

  function PadLength(n: nat): (k: nat)
    ensures k < 4
  {
    (4 - n % 4) % 4
  }

  /** The text with zero bytes up to the next multiple of four. */
  function Padded(text: string): string {
    text + Zeros(PadLength(|text|))
  }

  lemma PaddedLength(text: string)
    ensures |Padded(text)| % 4 == 0
  {
  }

  /** The bytes of a padded text seen as dwords. */
  function DwordsOf(bytes: string): (ws: seq<Word>)
    requires IsOctets(bytes)
  {
    if |bytes| < 4 then [] else [Dword(bytes[0], bytes[1], bytes[2], bytes[3])] + DwordsOf(bytes[4..])
  }

  /** The dwords of a text region seen as bytes. */
  function BytesOf(ws: seq<Word>): (bytes: string)
    ensures |bytes| == 4 * |ws|
  {
    if ws == [] then ""
    else [OctetAt(ws[0], 0), OctetAt(ws[0], 1), OctetAt(ws[0], 2), OctetAt(ws[0], 3)] + BytesOf(ws[1..])
  }

  lemma {:induction false} BytesOfDwordsOf(bytes: string)
    requires |bytes| % 4 == 0 && IsOctets(bytes)
    ensures BytesOf(DwordsOf(bytes)) == bytes
  {
    if bytes != "" {
      DwordOctets(bytes[0], bytes[1], bytes[2], bytes[3]);
      BytesOfDwordsOf(bytes[4..]);
      assert DwordsOf(bytes)[1..] == DwordsOf(bytes[4..]);
    }
  }

  lemma {:induction false} DwordsOfLength(bytes: string)
    requires IsOctets(bytes)
    ensures |DwordsOf(bytes)| == |bytes| / 4
  {
    if |bytes| >= 4 {
      DwordsOfLength(bytes[4..]);
    }
  }
}
