/** String fields of the M3G format. A string is stored as its UTF-8 bytes
    followed by one zero byte; the record length says where the field ends. */
module Strings {
  import opened Bytes

  /** The UTF-8 encoding of one Unicode scalar value (what `str.encode()` gives). */
  function Utf8Char(c: char): (r: seq<byte>)
    ensures 1 <= |r| <= 4
    ensures |r| == 1 <==> (c as int) < 0x80
    ensures c != '\0' ==> 0 !in r
  {
    var cp := c as int;
    if cp < 0x80 then [cp]
    else if cp < 0x800 then [0xC0 + cp / 0x40, 0x80 + cp % 0x40]
    else if cp < 0x1_0000 then [0xE0 + cp / 0x1000, 0x80 + (cp / 0x40) % 0x40, 0x80 + cp % 0x40]
    else [0xF0 + cp / 0x4_0000, 0x80 + (cp / 0x1000) % 0x40, 0x80 + (cp / 0x40) % 0x40, 0x80 + cp % 0x40]
  }

  /** The UTF-8 encoding of a string. */
  function Utf8(s: string): (r: seq<byte>)
    ensures |r| >= |s|
  {
    if s == [] then [] else Utf8Char(s[0]) + Utf8(s[1..])
  }

  predicate IsAscii(s: string)
  {
    forall i :: 0 <= i < |s| ==> (s[i] as int) < 0x80
  }

  /** A string encodes to one byte per character exactly when it is ASCII. */
  lemma {:induction false} Utf8LengthAscii(s: string)
    ensures |Utf8(s)| == |s| <==> IsAscii(s)
  {
    if s != [] {
      Utf8LengthAscii(s[1..]);
      assert IsAscii(s) <==> (s[0] as int) < 0x80 && IsAscii(s[1..]) by {
        if IsAscii(s[1..]) && (s[0] as int) < 0x80 {
          forall i | 0 <= i < |s| ensures (s[i] as int) < 0x80 {
            if i > 0 { assert s[i] == s[1..][i - 1]; }
          }
        }
        if IsAscii(s) {
          forall i | 0 <= i < |s| - 1 ensures (s[1..][i] as int) < 0x80 {
            assert s[1..][i] == s[i + 1];
          }
        }
      }
    }
  }

  /** The character codes of an ASCII string, one byte each. */
  function AsciiCodes(s: string): (r: seq<byte>)
    requires IsAscii(s)
    ensures |r| == |s|
  {
    seq(|s|, i requires 0 <= i < |s| => s[i] as int)
  }

  /** An ASCII string encodes to its character codes. */
  lemma {:induction false} Utf8OfAscii(s: string)
    requires IsAscii(s)
    ensures Utf8(s) == AsciiCodes(s)
  {
    if s != [] {
      assert IsAscii(s[1..]) by {
        forall i | 0 <= i < |s| - 1 ensures (s[1..][i] as int) < 0x80 {
          assert s[1..][i] == s[i + 1];
        }
      }
      Utf8OfAscii(s[1..]);
      assert (s[0] as int) < 0x80;
      assert Utf8Char(s[0]) == [s[0] as int];
      forall i | 0 <= i < |s| ensures Utf8(s)[i] == s[i] as int {
        if i > 0 { assert s[i] == s[1..][i - 1]; }
      }
    }
  }

  /** The encoding of a string without NUL characters has no zero byte. */
  lemma {:induction false} Utf8NoZero(s: string)
    requires '\0' !in s
    ensures 0 !in Utf8(s)
  {
    if s != [] {
      assert s[0] in s;
      assert forall c :: c in s[1..] ==> c in s;
      Utf8NoZero(s[1..]);
    }
  }

  /** `struct.pack('{n}s', b)`: b cut to n bytes, or padded with zero bytes to n. */
  function PackFixed(b: seq<byte>, n: nat): (r: seq<byte>)
    ensures |r| == n
    ensures |b| < n ==> r[..|b|] == b && forall i :: |b| <= i < n ==> r[i] == 0
    ensures |b| >= n ==> r == b[..n]
  {
    if |b| >= n then b[..n] else b + seq(n - |b|, _ => 0)
  }

  /** A string field as the exporter writes it:
      `struct.pack(f"{len(s)+1}s", s.encode())`. The width counts characters,
      not encoded bytes. */
  function StringFieldAsWritten(s: string): (r: seq<byte>)
    ensures |r| == StringFieldLengthAsWritten(s)
  {
    PackFixed(Utf8(s), |s| + 1)
  }

  /** `struct.calcsize(f"{len(s)+1}s")`. */
  function StringFieldLengthAsWritten(s: string): nat
  {
    |s| + 1
  }

  /** A one-character URI whose encoding is two bytes loses its terminating
      zero byte: the field holds the two UTF-8 bytes and nothing else. */
  lemma NonAsciiFieldHasNoTerminator()
    ensures StringFieldAsWritten("é") == [0xC3, 0xA9]
    ensures 0 !in StringFieldAsWritten("é")
  {
    assert Utf8("é") == [0xC3, 0xA9];
  }

  /** A string field as the format defines it: the UTF-8 bytes and one zero byte. */
  function StringField(s: string): (r: seq<byte>)
    ensures |r| == StringFieldLength(s)
    ensures r[|r| - 1] == 0
  {
    Utf8(s) + [0]
  }

  function StringFieldLength(s: string): (n: nat)
    ensures n >= |s| + 1
  {
    |Utf8(s)| + 1
  }

  /** For ASCII text the written field and the format's field coincide. */
  lemma AsciiFieldsAgree(s: string)
    requires IsAscii(s)
    ensures StringFieldAsWritten(s) == StringField(s)
    ensures StringFieldLengthAsWritten(s) == StringFieldLength(s)
  {
    Utf8LengthAscii(s);
    assert PackFixed(Utf8(s), |s| + 1) == Utf8(s) + [0];
  }

  /** Index of the first zero byte of b, or |b| when there is none. */
  function FirstZero(b: seq<byte>): (k: nat)
    ensures k <= |b|
    ensures k < |b| ==> b[k] == 0
    ensures forall i :: 0 <= i < k ==> b[i] != 0
  {
    if b == [] then 0 else if b[0] == 0 then 0 else 1 + FirstZero(b[1..])
  }

  /** A reader of a string field: the bytes before the first zero byte, or
      None when the field is not terminated. */
  function ReadStringField(b: seq<byte>): Option<seq<byte>>
  {
    var k := FirstZero(b);
    if k < |b| then Some(b[..k]) else None
  }

  /** Reading back the field of a NUL-free string gives its UTF-8 bytes. */
  lemma StringFieldRoundTrip(s: string)
    requires '\0' !in s
    ensures ReadStringField(StringField(s)) == Some(Utf8(s))
  {
    Utf8NoZero(s);
    var b := StringField(s);
    assert forall i :: 0 <= i < |Utf8(s)| ==> b[i] == Utf8(s)[i] != 0;
    assert FirstZero(b) == |Utf8(s)|;
    assert b[..|Utf8(s)|] == Utf8(s);
  }

  /** The field the exporter writes for a non-ASCII URI cannot be read back. */
  lemma AsWrittenFieldUnreadable()
    ensures ReadStringField(StringFieldAsWritten("é")) == None
  {
    NonAsciiFieldHasNoTerminator();
  }
}
