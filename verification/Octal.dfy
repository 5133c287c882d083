/** Octal fields: printed by snprintf with %0No (lib/stdio.c:469-547) and parsed back (lib/ustar.c:124-164). */
module Octal {
  import opened Wrappers

  type octet = x: int | 0 <= x < 256

  const ULONG_MAX := 0xFFFF_FFFF
  const SPACE: octet := 32

  predicate IsDigit(c: octet) {
    48 <= c <= 55
  }

  /** The value of a row of octal digits, the most significant first. */
  function Value(s: seq<octet>): nat
    requires forall i: nat | i < |s| :: IsDigit(s[i])
  {
    if s == [] then 0 else assert IsDigit(s[|s| - 1]); 8 * Value(s[..|s| - 1]) + (s[|s| - 1] - 48)
  }

  /** The digits of v without leading zeros. */
  function Digits(v: nat): (r: seq<octet>)
    ensures forall i: nat | i < |r| :: IsDigit(r[i])
  {
    if v == 0 then [] else Digits(v / 8) + [48 + v % 8]
  }

  function Zeros(n: nat): (r: seq<octet>)
    ensures |r| == n && forall i: nat | i < n :: r[i] == 48
  {
    seq(n, _ => 48)
  }

  /** v in w digits, with leading zeros. */
  function Padded(v: nat, w: nat): (r: seq<octet>)
    requires |Digits(v)| <= w
    ensures |r| == w && forall i: nat | i < w :: IsDigit(r[i])
  {
    Zeros(w - |Digits(v)|) + Digits(v)
  }

  lemma {:induction false} ValueOfPadded(z: nat, v: nat)
    ensures Value(Zeros(z) + Digits(v)) == v
    decreases v, z
  {
    var s := Zeros(z) + Digits(v);
    if v > 0 {
      ValueOfPadded(z, v / 8);
      assert s[..|s| - 1] == Zeros(z) + Digits(v / 8);
    } else if z > 0 {
      ValueOfPadded(z - 1, 0);
      assert s[..|s| - 1] == Zeros(z - 1) + Digits(0);
    }
  }

  /** Printing and reading back. */
  lemma PrintThenRead(v: nat, w: nat)
    requires |Digits(v)| <= w
    ensures Value(Padded(v, w)) == v
  {
    ValueOfPadded(w - |Digits(v)|, v);
  }

  lemma {:induction false} DigitCount(v: nat, n: nat, limit: nat)
    requires limit == Pow8(n) && v < limit
    ensures |Digits(v)| <= n
    decreases n
  {
    if v > 0 && n > 0 {
      DigitCount(v / 8, n - 1, limit / 8);
    }
  }

  function Pow8(n: nat): nat {
    if n == 0 then 1 else 8 * Pow8(n - 1)
  }

  lemma ElevenDigits(v: nat)
    ensures v < 0x2_0000_0000 ==> |Digits(v)| <= 11
    ensures v < 0x20_0000 ==> |Digits(v)| <= 7
  {
    assert Pow8(4) == 4096;
    assert Pow8(7) == 0x20_0000;
    assert Pow8(8) == 0x100_0000;
    assert Pow8(11) == 0x2_0000_0000;
    if v < 0x2_0000_0000 {
      DigitCount(v, 11, 0x2_0000_0000);
    }
    if v < 0x20_0000 {
      DigitCount(v, 7, 0x20_0000);
    }
  }

  // ---- printing

  function Reversed(s: seq<octet>): (r: seq<octet>)
    ensures |r| == |s|
  {
    if s == [] then [] else [s[|s| - 1]] + Reversed(s[..|s| - 1])
  }

  /** The first loop of format_integer: the digits come out in reverse. */
  method Accumulate(value: nat) returns (buf: seq<octet>)
    ensures Reversed(buf) == Digits(value)
  {
    buf := [];
    var v := value;
    while v > 0
      invariant Digits(value) == Digits(v) + Reversed(buf)
    {
      assert (buf + [48 + v % 8])[..|buf|] == buf;
      buf := buf + [48 + v % 8];
      v := v / 8;
    }
  }

  /** The last loop of format_integer: the buffer is put out backwards. */
  method Backwards(head: seq<octet>, digits: seq<octet>) returns (out: seq<octet>)
    ensures out == head + Reversed(digits)
  {
    out := head;
    var buf := digits;
    while |buf| > 0
      invariant out + Reversed(buf) == head + Reversed(digits)
    {
      out := out + [buf[|buf| - 1]];
      buf := buf[..|buf| - 1];
    }
  }

  /** format_integer for %0wo. */
  method Print(value: nat, width: nat) returns (out: seq<octet>)
    requires width > 0
    ensures out == if |Digits(value)| <= width then Padded(value, width) else Digits(value)
  {
    var buf := Accumulate(value);
    if |buf| < 1 {
      buf := [48];
    }
    var pad := width - |buf|;
    out := Backwards(if pad > 0 then Zeros(pad) else [], buf);
    assert value == 0 ==> out == Zeros(width);
  }

  // ---- parsing

  /** The number of octal digits at the start of s. */
  function Leading(s: seq<octet>): (n: nat)
    ensures n <= |s| && (forall i: nat | i < n :: IsDigit(s[i])) && (n < |s| ==> !IsDigit(s[n]))
  {
    if s == [] || !IsDigit(s[0]) then 0 else 1 + Leading(s[1..])
  }

  /** What a field holds: some digits, ended by a space or a null byte, of a value that fits. */
  function FieldValue(s: seq<octet>): Option<nat> {
    var n := Leading(s);
    if 0 < n < |s| && s[n] in {0, SPACE} && Value(s[..n]) <= ULONG_MAX then Some(Value(s[..n])) else None
  }

  lemma {:induction false} LeadingIs(s: seq<octet>, n: nat)
    requires n <= |s| && (forall i: nat | i < n :: IsDigit(s[i])) && (n < |s| ==> !IsDigit(s[n]))
    ensures Leading(s) == n
    decreases n
  {
    if n > 0 {
      LeadingIs(s[1..], n - 1);
    }
  }

  lemma {:induction false} ValueGrows(s: seq<octet>, n: nat, m: nat)
    requires n <= m <= |s| && forall i: nat | i < m :: IsDigit(s[i])
    ensures Value(s[..n]) <= Value(s[..m])
    decreases m
  {
    if n < m {
      ValueGrows(s, n, m - 1);
      assert s[..m][..m - 1] == s[..m - 1];
    }
  }

  /** parse_octal_field. */
  method ParseField(s: seq<octet>) returns (r: Option<nat>)
    ensures r == FieldValue(s)
  {
    var value := 0;
    var ofs := 0;
    while ofs < |s|
      invariant 0 <= ofs <= |s| && (forall i: nat | i < ofs :: IsDigit(s[i])) && value == Value(s[..ofs]) <= ULONG_MAX
    {
      var c := s[ofs];
      if 48 <= c <= 55 {
        assert s[..ofs + 1][..ofs] == s[..ofs];
        if value > ULONG_MAX / 8 {
          ValueGrows(s, ofs + 1, Leading(s));
          return None;
        }
        value := c - 48 + value * 8;
      } else {
        LeadingIs(s, ofs);
        return if (c == SPACE || c == 0) && ofs > 0 then Some(value) else None;
      }
      ofs := ofs + 1;
    }
    LeadingIs(s, ofs);
    r := None;
  }

  /** A printed number, ended by a null byte, is read back. */
  lemma FieldRoundTrip(v: nat, w: nat, s: seq<octet>)
    requires 0 < w < |s| && |Digits(v)| <= w && v <= ULONG_MAX && s[..w] == Padded(v, w) && s[w] == 0
    ensures FieldValue(s) == Some(v)
  {
    assert forall i: nat | i < w :: s[i] == s[..w][i];
    LeadingIs(s, w);
    PrintThenRead(v, w);
  }
}
