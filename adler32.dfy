/** The section checksum: Adler-32 as section 2.2 of RFC 1950 defines it. */
module Adler32 {
  import opened Bytes

  /** The modulus of both running sums: the largest prime below 65536. */
  const BASE: nat := 65521

  /** The running sums (s1, s2) after the bytes of data, one byte at a time:
      s1 starts at 1 and adds each byte, s2 starts at 0 and adds each new s1,
      both reduced modulo BASE after every byte. */
  function Sums(data: seq<byte>): (r: (nat, nat))
    ensures r.0 < BASE && r.1 < BASE
  {
    if data == [] then (1, 0)
    else
      var (s1, s2) := Sums(data[..|data| - 1]);
      var s1' := (s1 + data[|data| - 1]) % BASE;
      (s1', (s2 + s1') % BASE)
  }

  /** The checksum: s2 in the high half-word, s1 in the low half-word. */
  function Checksum(data: seq<byte>): (r: nat)
    ensures r < 0x1_0000_0000
    ensures r % 0x1_0000 == Sums(data).0 && r / 0x1_0000 == Sums(data).1
  {
    var (s1, s2) := Sums(data);
    s2 * 0x1_0000 + s1
  }

  /** The sum of the bytes. */
  function Sum(data: seq<byte>): nat
  {
    if data == [] then 0 else data[0] + Sum(data[1..])
  }

  /** Each byte weighted by the number of s1 values it contributes to:
      data[i] is counted |data| - i times. */
  function WeightedSum(data: seq<byte>): nat
  {
    if data == [] then 0 else |data| * data[0] + WeightedSum(data[1..])
  }

  lemma {:induction false} SumSnoc(data: seq<byte>, b: byte)
    ensures Sum(data + [b]) == Sum(data) + b
  {
    if data != [] {
      assert (data + [b])[1..] == data[1..] + [b];
      SumSnoc(data[1..], b);
    }
  }

  lemma {:induction false} WeightedSumSnoc(data: seq<byte>, b: byte)
    ensures WeightedSum(data + [b]) == WeightedSum(data) + Sum(data) + b
  {
    if data != [] {
      assert (data + [b])[1..] == data[1..] + [b];
      WeightedSumSnoc(data[1..], b);
    }
  }

  lemma ModAdd(x: int, y: int)
    ensures (x % BASE + y) % BASE == (x + y) % BASE
  {
  }

  /** The closed form of the checksum sums: s1 is one plus the byte sum and s2
      is the byte count plus the weighted byte sum, each taken modulo 65521.
      The byte-at-a-time reduction of Sums gives the same values. */
  lemma {:induction false} SumsClosedForm(data: seq<byte>)
    ensures Sums(data).0 == (1 + Sum(data)) % BASE
    ensures Sums(data).1 == (|data| + WeightedSum(data)) % BASE
  {
    if data != [] {
      var init, b := data[..|data| - 1], data[|data| - 1];
      assert data == init + [b];
      SumsClosedForm(init);
      SumSnoc(init, b);
      WeightedSumSnoc(init, b);
      ModAdd(1 + Sum(init), b);
      var s1' := (1 + Sum(data)) % BASE;
      ModAdd(|init| + WeightedSum(init), s1');
      ModAdd(1 + Sum(data), |init| + WeightedSum(init));
    }
  }

  /** The checksum of one more byte follows from the sums before it. */
  lemma ChecksumStep(data: seq<byte>, b: byte)
    ensures Sums(data + [b]).0 == (Sums(data).0 + b) % BASE
    ensures Sums(data + [b]).1 == (Sums(data).1 + Sums(data + [b]).0) % BASE
  {
    assert (data + [b])[..|data + [b]| - 1] == data;
  }

  /** An empty body has the seed as checksum; one byte b gives (b+1) in both sums. */
  lemma ChecksumSmall(b: byte)
    ensures Checksum([]) == 1
    ensures Checksum([b]) == (b + 1) * 0x1_0001
  {
    assert [b][..0] == [];
  }
}
