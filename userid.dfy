/** User IDs taken from object names (`translateUserID`): the number written
    in decimal digits right after the first '#' of the name, 0 when there is
    none. */
module UserIds {
  import opened Bytes

  /** An ASCII decimal digit, which `int()` accepts. The decimal digits of
      other scripts, which `int()` accepts too, are not part of this model. */
  predicate IsDecimal(c: char)
  {
    '0' <= c <= '9'
  }

  /** The value of a decimal digit. */
  function DecimalValue(c: char): (r: nat)
    requires IsDecimal(c)
    ensures r < 10
  {
    c as int - '0' as int
  }

  /** A digit `int()` does not accept: Unicode Numeric_Type Digit, as of
      Unicode 15.0 (superscripts, subscripts, circled and parenthesised
      digits and a few numbers of other scripts). */
  predicate IsOtherDigit(c: char)
  {
    '\U{B2}' <= c <= '\U{B3}' || c == '\U{B9}' || '\U{1369}' <= c <= '\U{1371}' || c == '\U{19DA}'
    || c == '\U{2070}' || '\U{2074}' <= c <= '\U{2079}' || '\U{2080}' <= c <= '\U{2089}'
    || '\U{2460}' <= c <= '\U{2468}' || '\U{2474}' <= c <= '\U{247C}'
    || '\U{2488}' <= c <= '\U{2490}' || c == '\U{24EA}' || '\U{24F5}' <= c <= '\U{24FD}'
    || c == '\U{24FF}' || '\U{2776}' <= c <= '\U{277E}' || '\U{2780}' <= c <= '\U{2788}'
    || '\U{278A}' <= c <= '\U{2792}' || '\U{10A40}' <= c <= '\U{10A43}'
    || '\U{10E60}' <= c <= '\U{10E68}' || '\U{11052}' <= c <= '\U{1105A}'
    || '\U{1F100}' <= c <= '\U{1F10A}'
  }

  /** `str.isdigit()`: the decimal digits and the characters of Unicode
      Numeric_Type Digit. */
  predicate IsDigit(c: char)
  {
    IsDecimal(c) || IsOtherDigit(c)
  }

  /** `s.find(c)`: the first index of c, or -1. */
  function Find(s: string, c: char): (r: int)
    ensures r >= -1
    ensures r == -1 <==> c !in s
    ensures r >= 0 ==> r < |s| && s[r] == c && c !in s[..r]
  {
    if s == [] then -1
    else if s[0] == c then 0
    else
      var r := Find(s[1..], c);
      assert s[1..] == s[1..][..|s| - 1];
      if r == -1 then -1
      else
        assert s[..r + 1] == [s[0]] + s[1..][..r];
        r + 1
  }

  /** The length of the longest prefix of s whose characters all satisfy digit. */
  function Run(s: string, digit: char -> bool): (r: nat)
    ensures r <= |s|
    ensures forall i :: 0 <= i < r ==> digit(s[i])
    ensures r < |s| ==> !digit(s[r])
  {
    if s == [] || !digit(s[0]) then 0 else 1 + Run(s[1..], digit)
  }

  /** A prefix of n characters that satisfy digit, followed by the end of s
      or by one that does not, is the run. */
  lemma {:induction false} RunIs(s: string, n: nat, digit: char -> bool)
    requires n <= |s| && forall i :: 0 <= i < n ==> digit(s[i])
    requires n < |s| ==> !digit(s[n])
    ensures Run(s, digit) == n
    decreases n
  {
    if n > 0 {
      assert forall i :: 0 <= i < n - 1 ==> s[1..][i] == s[i + 1];
      RunIs(s[1..], n - 1, digit);
    }
  }

  /** The value of a string of decimal digits, most significant first. */
  function Value(s: string): nat
    requires forall i :: 0 <= i < |s| ==> IsDecimal(s[i])
  {
    if s == [] then 0
    else
      assert IsDecimal(s[|s| - 1]);
      10 * Value(s[..|s| - 1]) + DecimalValue(s[|s| - 1])
  }

  /** `int(s)` for a non-empty string of `isdigit` characters: a ValueError
      (None) unless every one is a decimal digit. */
  function Int(s: string): (r: Option<nat>)
    ensures r.Some? <==> forall i :: 0 <= i < |s| ==> IsDecimal(s[i])
    ensures r.Some? ==> r.value == Value(s)
  {
    if forall i :: 0 <= i < |s| ==> IsDecimal(s[i]) then Some(Value(s)) else None
  }

  /** The id `translateUserID` as written reads from the text after the '#':
      the characters `isdigit` accepts, given to `int`, or 0 when there is
      none. */
  function RunIdAsWritten(rest: string): (r: Option<nat>)
  {
    var n := Run(rest, IsDigit);
    if n > 0 then Int(rest[..n]) else Some(0)
  }

  /** `translateUserID` as written: `int` fails when the run of `isdigit`
      characters after the first '#' holds a digit that is not decimal. */
  function UserIdAsWritten(name: string): (r: Option<nat>)
    ensures '#' !in name ==> r == Some(0)
  {
    var start := Find(name, '#');
    if start == -1 then Some(0) else RunIdAsWritten(name[start + 1..])
  }

  /** No character is a digit of both kinds. */
  lemma OtherDigitNotDecimal(c: char)
    requires IsOtherDigit(c)
    ensures !IsDecimal(c)
  {
  }

  /** Some character of the `isdigit` run at the head of s is a digit
      `int` cannot read. */
  predicate RunHasOtherDigit(s: string)
  {
    exists i :: 0 <= i < Run(s, IsDigit) && IsOtherDigit(s[i])
  }

  lemma RunIdAsWrittenFails(rest: string)
    ensures RunIdAsWritten(rest).None? <==> RunHasOtherDigit(rest)
  {
    var n := Run(rest, IsDigit);
    if RunHasOtherDigit(rest) {
      var i :| 0 <= i < n && IsOtherDigit(rest[i]);
      OtherDigitNotDecimal(rest[i]);
      assert !IsDecimal(rest[..n][i]);
    } else {
      assert forall i :: 0 <= i < n ==> IsDecimal(rest[..n][i]);
    }
  }

  /** The code as written raises exactly when the `isdigit` run after the
      first '#' holds a digit that is not decimal. */
  lemma AsWrittenFails(name: string)
    ensures UserIdAsWritten(name).None? <==>
      Find(name, '#') >= 0 && RunHasOtherDigit(name[Find(name, '#') + 1..])
  {
    if Find(name, '#') >= 0 {
      RunIdAsWrittenFails(name[Find(name, '#') + 1..]);
    }
  }

  /** Any name whose first '#' is followed by a digit `int` cannot read, such
      as a superscript or subscript digit, makes the code as written raise. */
  lemma OtherDigitUserIdFails(prefix: string, c: char, suffix: string)
    requires '#' !in prefix && IsOtherDigit(c)
    ensures UserIdAsWritten(prefix + "#" + [c] + suffix).None?
  {
    var rest := [c] + suffix;
    assert prefix + "#" + [c] + suffix == prefix + "#" + rest;
    FindAfter(prefix, rest);
    assert rest[0] == c;
    RunIdAsWrittenFails(rest);
  }

  /** "Cube#²": the superscript two passes `isdigit`, and `int` then raises. */
  lemma SuperscriptUserIdFails()
    ensures UserIdAsWritten("Cube#²").None?
  {
    OtherDigitUserIdFails("Cube", '²', "");
    assert "Cube" + "#" + ['²'] + "" == "Cube#²";
  }

  /** The id read from the text after the '#': the value of the decimal
      digits at its head. */
  function RunId(rest: string): nat
  {
    Value(rest[..Run(rest, IsDecimal)])
  }

  /** The user ID: the value of the decimal digits right after the first '#'. */
  function UserId(name: string): (r: nat)
    ensures '#' !in name ==> r == 0
  {
    var start := Find(name, '#');
    if start == -1 then 0 else RunId(name[start + 1..])
  }

  /** When every character `isdigit` accepts at the head of s is a decimal
      digit, both scans stop at the same place. */
  lemma {:induction false} RunsMeet(s: string)
    requires forall i :: 0 <= i < Run(s, IsDigit) ==> IsDecimal(s[i])
    ensures Run(s, IsDecimal) == Run(s, IsDigit)
    decreases |s|
  {
    if s != [] && IsDigit(s[0]) {
      assert IsDecimal(s[0]);
      assert forall i :: 0 <= i < Run(s[1..], IsDigit) ==> s[1..][i] == s[i + 1];
      RunsMeet(s[1..]);
    }
  }

  lemma RunIdAsWrittenAgrees(rest: string)
    requires RunIdAsWritten(rest).Some?
    ensures RunIdAsWritten(rest) == Some(RunId(rest))
  {
    var n := Run(rest, IsDigit);
    if n > 0 {
      assert forall i :: 0 <= i < n ==> IsDecimal(rest[i]) by {
        forall i | 0 <= i < n ensures IsDecimal(rest[i]) {
          assert rest[i] == rest[..n][i];
        }
      }
    }
    RunsMeet(rest);
  }

  /** Where the code as written does give an ID, it is the user ID. */
  lemma AsWrittenAgrees(name: string)
    requires UserIdAsWritten(name).Some?
    ensures UserIdAsWritten(name) == Some(UserId(name))
  {
    if Find(name, '#') != -1 {
      RunIdAsWrittenAgrees(name[Find(name, '#') + 1..]);
    }
  }

  /** The decimal digits of n, most significant first, without leading zeros. */
  function Digits(n: nat): (r: string)
    ensures |r| > 0 && forall i :: 0 <= i < |r| ==> IsDecimal(r[i])
    ensures Value(r) == n
  {
    var d := ('0' as int + n % 10) as char;
    if n < 10 then [d]
    else
      var r := Digits(n / 10) + [d];
      assert r[..|r| - 1] == Digits(n / 10);
      r
  }

  lemma {:induction false} RunOfDigits(d: string, s: string)
    requires forall i :: 0 <= i < |d| ==> IsDecimal(d[i])
    requires s == [] || !IsDecimal(s[0])
    ensures Run(d + s, IsDecimal) == |d|
    decreases |d|
  {
    if d != [] {
      assert (d + s)[1..] == d[1..] + s;
      RunOfDigits(d[1..], s);
    }
  }

  /** In a name made of a prefix without '#', a '#' and the rest, the first
      '#' is the one after the prefix. */
  lemma FindAfter(prefix: string, rest: string)
    requires '#' !in prefix
    ensures Find(prefix + "#" + rest, '#') == |prefix|
    ensures (prefix + "#" + rest)[|prefix| + 1..] == rest
  {
    var name := prefix + "#" + rest;
    assert name[..|prefix|] == prefix && name[|prefix|] == '#';
  }

  /** The decimal digits d, followed by the end or a character that is no
      decimal digit, are read as the value of d. */
  lemma RunIdOf(d: string, suffix: string)
    requires forall i :: 0 <= i < |d| ==> IsDecimal(d[i])
    requires suffix == [] || !IsDecimal(suffix[0])
    ensures RunId(d + suffix) == Value(d)
  {
    RunOfDigits(d, suffix);
    assert (d + suffix)[..|d|] == d;
  }

  /** A name whose first '#' is followed by the decimal digits d (possibly
      none) and then by the end or a character that is no decimal digit has
      the value of d as its user ID. */
  lemma UserIdRoundTrip(prefix: string, d: string, suffix: string)
    requires '#' !in prefix
    requires forall i :: 0 <= i < |d| ==> IsDecimal(d[i])
    requires suffix == [] || !IsDecimal(suffix[0])
    ensures UserId(prefix + "#" + d + suffix) == Value(d)
  {
    assert prefix + "#" + d + suffix == prefix + "#" + (d + suffix);
    FindAfter(prefix, d + suffix);
    RunIdOf(d, suffix);
  }

  /** In particular a name that carries n in decimal right after its first
      '#', and no further digit, has user ID n. */
  lemma UserIdOfNumber(prefix: string, n: nat, suffix: string)
    requires '#' !in prefix
    requires suffix == [] || !IsDecimal(suffix[0])
    ensures UserId(prefix + "#" + Digits(n) + suffix) == n
  {
    UserIdRoundTrip(prefix, Digits(n), suffix);
  }

  /** `translateUserID` with its digit test narrowed to the digits `int`
      accepts: the loop over the text after the '#' stops at the first
      character that is not one. */
  method TranslateUserID(name: string) returns (id: nat)
    ensures id == UserId(name)
  {
    id := 0;
    var start := Find(name, '#');
    if start != -1 {
      var rest := name[start + 1..];
      var end := 0;
      for k := 0 to |rest|
        invariant end == k
        invariant forall i :: 0 <= i < end ==> IsDecimal(rest[i])
      {
        if IsDecimal(rest[k]) {
          end := end + 1;
        } else {
          break;
        }
      }
      RunIs(rest, end, IsDecimal);
      if end > 0 {
        id := Value(rest[..end]);
      }
    }
  }
}
