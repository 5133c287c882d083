/** ustar archive headers (lib/ustar.c), in the ustar Interchange Format of the pax utility in SUSv3. */
module Ustar {
  import opened Wrappers
  import opened Octal

  const USTAR_HEADER_SIZE := 512
  const INT_MAX := 0x7FFF_FFFF
  const SLASH: octet := 47
  const DOT: octet := 46
  const REGULAR: octet := 48
  const DIRECTORY: octet := 53

  // ---- file names

  /** Starts with "/", "./" or "../". */
  predicate Antisocial(s: seq<octet>) {
    || (|s| >= 1 && s[0] == SLASH) || (|s| >= 2 && s[0] == DOT && s[1] == SLASH)
    || (|s| >= 3 && s[0] == DOT && s[1] == DOT && s[2] == SLASH)
  }

  /** The index of the first slash, or the length. */
  function FirstSlash(s: seq<octet>): (i: nat)
    ensures i <= |s| && (i < |s| ==> s[i] == SLASH) && forall j: nat | j < i :: s[j] != SLASH
  {
    if s == [] || s[0] == SLASH then 0 else 1 + FirstSlash(s[1..])
  }

  lemma SlashThere(s: seq<octet>)
    requires Antisocial(s)
    ensures FirstSlash(s) < |s|
  {
    assert s[0] == SLASH || s[1] == SLASH || s[2] == SLASH;
  }

  function Strip(s: seq<octet>): seq<octet>
    decreases |s|
  {
    if Antisocial(s) then SlashThere(s); Strip(s[FirstSlash(s) + 1..])
    else if s == [] || s == [DOT, DOT] then [DOT]
    else s
  }

  /** A stripped name is not empty, not "..", and has none of the prefixes left. */
  lemma {:induction false} StripIsSafe(s: seq<octet>)
    ensures Strip(s) != [] && Strip(s) != [DOT, DOT] && !Antisocial(Strip(s))
    decreases |s|
  {
    if Antisocial(s) {
      SlashThere(s);
      StripIsSafe(s[FirstSlash(s) + 1..]);
    }
  }

  lemma SameEnd(s: seq<octet>, k: nat, n: nat)
    requires k + n <= |s|
    ensures s[k..][|s| - k - n..] == s[|s| - n..]
  {
  }

  /** A stripped name is a suffix of the name, or ".". */
  lemma {:induction false} StripIsSuffix(s: seq<octet>)
    ensures var r := Strip(s); r == [DOT] || (|r| <= |s| && r == s[|s| - |r|..])
    decreases |s|
  {
    hide Antisocial, FirstSlash;
    if Antisocial(s) {
      SlashThere(s);
      var t := s[FirstSlash(s) + 1..];
      StripIsSuffix(t);
      if |Strip(t)| <= |t| {
        SameEnd(s, FirstSlash(s) + 1, |Strip(t)|);
      }
    }
  }

  lemma StripIsIdempotent(s: seq<octet>)
    ensures Strip(Strip(s)) == Strip(s)
  {
    StripIsSafe(s);
  }

  // ---- what is stripped, without reference to how

  /** s begins with p. */
  predicate Begins(s: seq<octet>, p: seq<octet>) {
    |p| <= |s| && s[..|p|] == p
  }

  /** The prefixes "/", "./" and "../". */
  function Prefixes(): seq<seq<octet>> {
    [[SLASH], [DOT, SLASH], [DOT, DOT, SLASH]]
  }

  /** s is a row of these prefixes and nothing else. */
  predicate OnlyPrefixes(s: seq<octet>) {
    s == [] || exists i: nat | i < 3 :: Begins(s, Prefixes()[i]) && OnlyPrefixes(s[|Prefixes()[i]|..])
  }

  /** s begins with none of them. */
  predicate Clean(s: seq<octet>) {
    forall i: nat | i < 3 :: !Begins(s, Prefixes()[i])
  }

  lemma CleanIs(s: seq<octet>)
    ensures Clean(s) <==> !Antisocial(s)
  {
    if Antisocial(s) {
      assert Begins(s, Prefixes()[0]) || Begins(s, Prefixes()[1]) || Begins(s, Prefixes()[2]);
    }
  }

  /** What the loop removes in one turn is one of the prefixes. */
  lemma OneTurn(s: seq<octet>)
    requires Antisocial(s)
    ensures FirstSlash(s) < |s| && exists i: nat | i < 3 :: s[..FirstSlash(s) + 1] == Prefixes()[i]
  {
    SlashThere(s);
    var p := s[..FirstSlash(s) + 1];
    if s[0] == SLASH {
      assert p == Prefixes()[0];
    } else if s[1] == SLASH {
      assert p == Prefixes()[1];
    } else {
      assert p == Prefixes()[2];
    }
  }

  /** A prefix in front of a row of prefixes. */
  lemma OneMore(p: seq<octet>, i: nat, rest: seq<octet>)
    requires i < 3 && p == Prefixes()[i] && OnlyPrefixes(rest)
    ensures OnlyPrefixes(p + rest)
  {
    assert (p + rest)[|p|..] == rest && Begins(p + rest, Prefixes()[i]);
  }

  /** What is left of a name once the first n bytes are gone. */
  function Remains(s: seq<octet>, n: nat): seq<octet>
    requires n <= |s|
  {
    if s[n..] == [] || s[n..] == [DOT, DOT] then [DOT] else s[n..]
  }

  /** A name loses a row of the three prefixes, and what is left begins with none; an empty rest or ".." becomes ".". */
  lemma {:induction false} StripRemoves(s: seq<octet>) returns (n: nat)
    ensures n <= |s| && OnlyPrefixes(s[..n]) && Clean(s[n..]) && Strip(s) == Remains(s, n)
    decreases |s|
  {
    CleanIs(s);
    if Antisocial(s) {
      OneTurn(s);
      var k := FirstSlash(s) + 1;
      var m := StripRemoves(s[k..]);
      n := k + m;
      var i: nat :| i < 3 && s[..k] == Prefixes()[i];
      OneMore(s[..k], i, s[k..][..m]);
      assert s[..k] + s[k..][..m] == s[..n] && s[k..][m..] == s[n..];
    } else {
      n := 0;
      assert s[0..] == s;
    }
  }

  /** None of the three begins with another. */
  lemma PrefixIsUnique(s: seq<octet>, i: nat, j: nat)
    requires i < 3 && j < 3 && Begins(s, Prefixes()[i]) && Begins(s, Prefixes()[j])
    ensures i == j
  {
    assert s[0] == Prefixes()[i][0] == Prefixes()[j][0];
    assert |s| >= 2 && i > 0 && j > 0 ==> s[1] == Prefixes()[i][1] == Prefixes()[j][1];
  }

  /** A row of prefixes at the start of s: the first one, and the row after it. */
  lemma FirstOfRow(s: seq<octet>, n: nat) returns (i: nat)
    requires 0 < n <= |s| && OnlyPrefixes(s[..n])
    ensures i < 3 && Begins(s, Prefixes()[i]) && 0 < |Prefixes()[i]| <= n
    ensures OnlyPrefixes(s[|Prefixes()[i]|..][..n - |Prefixes()[i]|]) && s[|Prefixes()[i]|..][n - |Prefixes()[i]|..] == s[n..]
  {
    i :| i < 3 && Begins(s[..n], Prefixes()[i]) && OnlyPrefixes(s[..n][|Prefixes()[i]|..]);
    var k := |Prefixes()[i]|;
    assert s[..n][..k] == s[..k] && s[..n][k..] == s[k..][..n - k];
  }

  /** The row of prefixes that leaves a clean rest is determined. */
  lemma {:induction false} RowIsUnique(s: seq<octet>, m: nat, n: nat)
    requires m <= |s| && n <= |s| && OnlyPrefixes(s[..m]) && Clean(s[m..]) && OnlyPrefixes(s[..n]) && Clean(s[n..])
    ensures m == n
    decreases |s|
  {
    hide OnlyPrefixes, Begins;
    assert s[0..] == s;
    if m > 0 {
      var i := FirstOfRow(s, m);
      if n > 0 {
        var j := FirstOfRow(s, n);
        PrefixIsUnique(s, i, j);
        RowIsUnique(s[|Prefixes()[i]|..], m - |Prefixes()[i]|, n - |Prefixes()[i]|);
      }
    } else if n > 0 {
      var j := FirstOfRow(s, n);
    }
  }

  /** So whoever cuts a row of prefixes off a name and is left with a clean rest has what strip_antisocial_prefixes returns. */
  lemma StripIs(s: seq<octet>, n: nat)
    requires n <= |s| && OnlyPrefixes(s[..n]) && Clean(s[n..])
    ensures Strip(s) == Remains(s, n)
  {
    var m := StripRemoves(s);
    RowIsUnique(s, m, n);
  }

  /** A harmless name stays as it is. */
  lemma HarmlessStays(s: seq<octet>)
    requires Clean(s) && s != [] && s != [DOT, DOT]
    ensures Strip(s) == s
  {
    assert s[0..] == s && s[..0] == [];
    StripIs(s, 0);
  }

  /** strip_antisocial_prefixes. */
  method StripPrefixes(name: seq<octet>) returns (r: seq<octet>)
    ensures r == Strip(name)
  {
    r := name;
    while Antisocial(r)
      invariant Strip(r) == Strip(name)
      decreases |r|
    {
      SlashThere(r);
      r := r[FirstSlash(r) + 1..];
    }
    if r == [] || r == [DOT, DOT] {
      r := [DOT];
    }
  }

  // ---- the checksum

  /** The sum of the first n bytes, the chksum field taken as spaces. */
  function Sum(h: seq<octet>, n: nat): nat
    requires n <= |h|
  {
    if n == 0 then 0 else Sum(h, n - 1) + if 148 <= n - 1 < 156 then 32 else h[n - 1]
  }

  method CalculateChksum(h: array<octet>) returns (sum: nat)
    requires h.Length == USTAR_HEADER_SIZE
    ensures sum == Sum(h[..], USTAR_HEADER_SIZE)
  {
    sum := 0;
    for i := 0 to USTAR_HEADER_SIZE
      invariant sum == Sum(h[..], i)
    {
      sum := sum + if 148 <= i < 156 then 32 else h[i];
    }
  }

  lemma {:induction false} SumIsBounded(h: seq<octet>, n: nat)
    requires n <= |h|
    ensures Sum(h, n) <= 255 * n
  {
    if n > 0 {
      SumIsBounded(h, n - 1);
    }
  }

  /** Filling in the chksum field does not change the checksum. */
  lemma {:induction false} SumIgnoresField(h: seq<octet>, h': seq<octet>, n: nat)
    requires n <= |h| == |h'| && forall i: nat | i < n && !(148 <= i < 156) :: h'[i] == h[i]
    ensures Sum(h', n) == Sum(h, n)
  {
    if n > 0 {
      SumIgnoresField(h, h', n - 1);
    }
  }

  // ---- writing fields

  /** h with data written at ofs. */
  function Overlaid(h: seq<octet>, ofs: nat, data: seq<octet>): (r: seq<octet>)
    requires ofs + |data| <= |h|
    ensures |r| == |h|
  {
    h[..ofs] + data + h[ofs + |data|..]
  }

  /** The n bytes of h from ofs on. */
  function Field(h: seq<octet>, ofs: nat, n: nat): (r: seq<octet>)
    requires ofs + n <= |h|
    ensures |r| == n
  {
    h[ofs..ofs + n]
  }

  lemma FieldWritten(h: seq<octet>, ofs: nat, data: seq<octet>)
    requires ofs + |data| <= |h|
    ensures Field(Overlaid(h, ofs, data), ofs, |data|) == data
  {
  }

  lemma FieldKept(h: seq<octet>, ofs: nat, data: seq<octet>, f: nat, n: nat)
    requires ofs + |data| <= |h| && f + n <= |h| && (f + n <= ofs || ofs + |data| <= f)
    ensures Field(Overlaid(h, ofs, data), f, n) == Field(h, f, n)
  {
  }

  method Put(h: array<octet>, ofs: nat, data: seq<octet>)
    requires ofs + |data| <= h.Length
    modifies h
    ensures h[..] == Overlaid(old(h[..]), ofs, data)
  {
    for i := 0 to |data|
      invariant forall k: nat | k < h.Length :: h[k] == if ofs <= k < ofs + i then data[k - ofs] else old(h[k])
    {
      h[ofs + i] := data[i];
    }
  }

  /** One field to be written. */
  datatype Write = Write(ofs: nat, data: seq<octet>)

  predicate Fits(ws: seq<Write>, n: nat) {
    forall i: nat | i < |ws| :: ws[i].ofs + |ws[i].data| <= n
  }

  function Apply(h: seq<octet>, ws: seq<Write>): (r: seq<octet>)
    requires Fits(ws, |h|)
    ensures |r| == |h|
  {
    if ws == [] then h
    else Overlaid(Apply(h, ws[..|ws| - 1]), ws[|ws| - 1].ofs, ws[|ws| - 1].data)
  }

  predicate Apart(w: Write, f: nat, n: nat) {
    f + n <= w.ofs || w.ofs + |w.data| <= f
  }

  /** The i-th write shows if the later ones are elsewhere. */
  lemma {:induction false} WriteShows(h: seq<octet>, ws: seq<Write>, i: nat)
    requires Fits(ws, |h|) && i < |ws| && forall j: nat | i < j < |ws| :: Apart(ws[j], ws[i].ofs, |ws[i].data|)
    ensures Field(Apply(h, ws), ws[i].ofs, |ws[i].data|) == ws[i].data
    decreases |ws|
  {
    var n := |ws| - 1;
    if i < n {
      WriteShows(h, ws[..n], i);
      FieldKept(Apply(h, ws[..n]), ws[n].ofs, ws[n].data, ws[i].ofs, |ws[i].data|);
    } else {
      FieldWritten(Apply(h, ws[..n]), ws[n].ofs, ws[n].data);
    }
  }

  lemma {:induction false} Untouched(h: seq<octet>, ws: seq<Write>, f: nat, n: nat)
    requires Fits(ws, |h|) && f + n <= |h| && forall j: nat | j < |ws| :: Apart(ws[j], f, n)
    ensures Field(Apply(h, ws), f, n) == Field(h, f, n)
    decreases |ws|
  {
    var m := |ws| - 1;
    if ws != [] {
      Untouched(h, ws[..m], f, n);
      FieldKept(Apply(h, ws[..m]), ws[m].ofs, ws[m].data, f, n);
    }
  }

  // ---- making a header

  const USTAR: seq<octet> := [117, 115, 116, 97, 114, 0]
  const ROOT: seq<octet> := [114, 111, 111, 116, 0]

  function Blank(): (r: seq<octet>)
    ensures |r| == USTAR_HEADER_SIZE && forall i: nat | i < |r| :: r[i] == 0
  {
    seq(USTAR_HEADER_SIZE, _ => 0)
  }

  /** A number in w digits and a null byte. */
  function Number(v: nat, w: nat): (r: seq<octet>)
    requires |Digits(v)| <= w
    ensures |r| == w + 1
  {
    Padded(v, w) + [0]
  }

  /** The int size as %o takes it: an unsigned number. */
  function Unsigned(size: int): (r: nat)
    ensures r < 0x1_0000_0000
  {
    size % 0x1_0000_0000
  }

  lemma UnsignedIs(size: int)
    requires -0x8000_0000 <= size < 0x8000_0000
    ensures Unsigned(size) == if size >= 0 then size else size + 0x1_0000_0000
  {
  }

  lemma NumbersFit(size: int, sum: nat)
    requires sum < 0x20_0000
    ensures |Digits(420)| <= 7 && |Digits(493)| <= 7 && |Digits(1136102400)| <= 11
    ensures |Digits(Unsigned(size))| <= 11 && |Digits(sum)| <= 7
  {
    ElevenDigits(420);
    ElevenDigits(493);
    ElevenDigits(1136102400);
    ElevenDigits(Unsigned(size));
    ElevenDigits(sum);
  }

  /** The fields that ustar_make_header fills in before the checksum, in its order. */
  function Fields(name: seq<octet>, isDir: bool, size: int): (r: seq<Write>)
    requires |name| <= 99
    ensures Fits(r, USTAR_HEADER_SIZE) && |r| == 11
  {
    NumbersFit(size, 0);
    [Write(0, name + [0]), Write(100, Number(if isDir then 493 else 420, 7)), Write(108, Zeros(7) + [0]), Write(116, Zeros(7) + [0]),
     Write(124, Number(Unsigned(size), 11)), Write(136, Number(1136102400, 11)), Write(156, [if isDir then DIRECTORY else REGULAR]),
     Write(257, USTAR), Write(263, [48, 48]), Write(297, ROOT), Write(265, ROOT)]
  }

  /** The header without its checksum. */
  function Unsealed(name: seq<octet>, isDir: bool, size: int): (r: seq<octet>)
    requires |name| <= 99
    ensures |r| == USTAR_HEADER_SIZE
  {
    Apply(Blank(), Fields(name, isDir, size))
  }

  function Chksum(h: seq<octet>): (r: nat)
    requires |h| == USTAR_HEADER_SIZE
    ensures r < 0x20_0000
  {
    SumIsBounded(h, USTAR_HEADER_SIZE);
    Sum(h, USTAR_HEADER_SIZE)
  }

  function Made(name: seq<octet>, isDir: bool, size: int): (r: seq<octet>)
    requires |name| <= 99
    ensures |r| == USTAR_HEADER_SIZE
  {
    var h := Unsealed(name, isDir, size);
    NumbersFit(size, Chksum(h));
    Overlaid(h, 148, Number(Chksum(h), 7))
  }

  method PutNumber(h: array<octet>, ofs: nat, v: nat, w: nat)
    requires w > 0 && |Digits(v)| <= w && ofs + w + 1 <= h.Length
    modifies h
    ensures h[..] == Overlaid(old(h[..]), ofs, Number(v, w))
  {
    var digits := Print(v, w);
    Put(h, ofs, digits + [0]);
  }

  method Clear(h: array<octet>)
    requires h.Length == USTAR_HEADER_SIZE
    modifies h
    ensures h[..] == Blank()
  {
    for i := 0 to USTAR_HEADER_SIZE
      invariant forall k: nat | k < i :: h[k] == 0
    {
      h[i] := 0;
    }
  }

  /** Runs the writes, one by one. */
  method PutAll(h: array<octet>, ws: seq<Write>)
    requires Fits(ws, h.Length)
    modifies h
    ensures h[..] == Apply(old(h[..]), ws)
  {
    for i := 0 to |ws|
      invariant h[..] == Apply(old(h[..]), ws[..i])
    {
      Put(h, ws[i].ofs, ws[i].data);
      assert ws[..i + 1][..i] == ws[..i];
    }
    assert ws[..|ws|] == ws;
  }

  /** ustar_make_header. */
  method MakeHeader(fileName: seq<octet>, isDir: bool, size: int, header: array<octet>) returns (ok: bool)
    requires header.Length == USTAR_HEADER_SIZE
    modifies header
    ensures ok <==> |Strip(fileName)| <= 99
    ensures header[..] == if ok then Made(Strip(fileName), isDir, size) else old(header[..])
  {
    var name := StripPrefixes(fileName);
    if |name| > 99 {
      return false;
    }
    Clear(header);
    PutAll(header, Fields(name, isDir, size));
    var sum := CalculateChksum(header);
    NumbersFit(size, Chksum(header[..]));
    PutNumber(header, 148, sum, 7);
    ok := true;
  }

  // ---- parsing a header

  datatype Error = NotUstar | BadVersion | CorruptChksum | ChksumMismatch | NameTooLong | UnknownType | CorruptSize | TooLarge
  datatype Parsed = EndOfArchive | Entry(name: seq<octet>, isDir: bool, size: nat) | Bad(error: Error)

  /** The string at the start of s, up to a null byte. */
  function CString(s: seq<octet>): (r: seq<octet>)
    ensures |r| <= |s| && r == s[..|r|] && 0 !in r && (|r| < |s| ==> s[|r|] == 0)
  {
    if s == [] || s[0] == 0 then [] else [s[0]] + CString(s[1..])
  }

  predicate AllZeros(h: seq<octet>) {
    forall i: nat | i < |h| :: h[i] == 0
  }

  /** What ustar_parse_header makes of a header. */
  function Parse(h: seq<octet>): Parsed
    requires |h| == USTAR_HEADER_SIZE
  {
    var sum, size := FieldValue(Field(h, 148, 8)), FieldValue(Field(h, 124, 12));
    if AllZeros(h) then EndOfArchive
    else if Field(h, 257, 6) != USTAR then Bad(NotUstar)
    else if Field(h, 263, 2) != [48, 48] then Bad(BadVersion)
    else if sum.None? then Bad(CorruptChksum)
    else if sum.value != Sum(h, USTAR_HEADER_SIZE) then Bad(ChksumMismatch)
    else if h[99] != 0 || h[345] != 0 then Bad(NameTooLong)
    else if h[156] != REGULAR && h[156] != DIRECTORY then Bad(UnknownType)
    else if h[156] == DIRECTORY then Entry(Strip(CString(Field(h, 0, 100))), true, 0)
    else if size.None? then Bad(CorruptSize)
    else if size.value > INT_MAX then Bad(TooLarge)
    else Entry(Strip(CString(Field(h, 0, 100))), false, size.value)
  }

  method IsAllZeros(h: array<octet>) returns (r: bool)
    ensures r == AllZeros(h[..])
  {
    for i := 0 to h.Length
      invariant forall k: nat | k < i :: h[k] == 0
    {
      if h[i] != 0 {
        return false;
      }
    }
    r := true;
  }

  /** ustar_parse_header. */
  method ParseHeader(h: array<octet>) returns (r: Parsed)
    requires h.Length == USTAR_HEADER_SIZE
    ensures r == Parse(h[..])
  {
    var zeros := IsAllZeros(h);
    if zeros {
      return EndOfArchive;
    }
    var sum := CalculateChksum(h);
    var chksum := ParseField(h[148..156]);
    var sizeField := ParseField(h[124..136]);
    var name := StripPrefixes(CString(h[0..100]));
    assert h[148..156] == Field(h[..], 148, 8) && h[124..136] == Field(h[..], 124, 12) && h[0..100] == Field(h[..], 0, 100);
    assert h[257..263] == Field(h[..], 257, 6) && h[263..265] == Field(h[..], 263, 2);
    if h[257..263] != USTAR {
      return Bad(NotUstar);
    }
    if h[263] != 48 || h[264] != 48 {
      return Bad(BadVersion);
    }
    if chksum.None? {
      return Bad(CorruptChksum);
    }
    if chksum.value != sum {
      return Bad(ChksumMismatch);
    }
    if h[99] != 0 || h[345] != 0 {
      return Bad(NameTooLong);
    }
    if h[156] != REGULAR && h[156] != DIRECTORY {
      return Bad(UnknownType);
    }
    if h[156] == REGULAR {
      if sizeField.None? {
        return Bad(CorruptSize);
      }
      if sizeField.value > INT_MAX {
        return Bad(TooLarge);
      }
      return Entry(name, false, sizeField.value);
    }
    r := Entry(name, true, 0);
  }

  // ---- the round trip

  /** Sealing the header changes the chksum field only. */
  lemma Sealed(name: seq<octet>, isDir: bool, size: int, f: nat, n: nat)
    requires |name| <= 99 && f + n <= USTAR_HEADER_SIZE && (f + n <= 148 || 156 <= f)
    ensures Field(Made(name, isDir, size), f, n) == Field(Unsealed(name, isDir, size), f, n)
  {
    var h := Unsealed(name, isDir, size);
    NumbersFit(size, Chksum(h));
    FieldKept(h, 148, Number(Chksum(h), 7), f, n);
  }

  lemma FieldsApart(name: seq<octet>, isDir: bool, size: int, i: nat)
    requires |name| <= 99 && i < 11
    ensures var ws := Fields(name, isDir, size);
            && (forall j: nat | i < j < 11 :: Apart(ws[j], ws[i].ofs, |ws[i].data|))
            && (ws[i].ofs + |ws[i].data| <= 148 || 156 <= ws[i].ofs)
  {
  }

  /** Field i of the header is as written. */
  lemma Shows(name: seq<octet>, isDir: bool, size: int, i: nat)
    requires |name| <= 99 && i < 11
    ensures var w := Fields(name, isDir, size)[i]; Field(Made(name, isDir, size), w.ofs, |w.data|) == w.data
  {
    hide Fields, Made, Field;
    var ws := Fields(name, isDir, size);
    FieldsApart(name, isDir, size, i);
    WriteShows(Blank(), ws, i);
    Sealed(name, isDir, size, ws[i].ofs, |ws[i].data|);
  }

  /** The digits of n, one at a time. */
  lemma MoreDigits(v: nat, d: octet)
    requires d < 8 && (v > 0 || d > 0)
    ensures Digits(8 * v + d) == Digits(v) + [48 + d]
  {
  }

  lemma NoDigits()
    ensures Digits(0) == []
  {
  }

  lemma ModeDigits()
    ensures Digits(420) == [54, 52, 52] && Digits(493) == [55, 53, 53]
  {
    hide Digits;
    NoDigits();
    MoreDigits(0, 6);
    MoreDigits(6, 4);
    MoreDigits(52, 4);
    MoreDigits(0, 7);
    MoreDigits(7, 5);
    MoreDigits(61, 5);
  }

  lemma TimeDigits()
    ensures Digits(1136102400) == [49, 48, 51, 53, 53, 55, 48, 54, 48, 48, 48]
  {
    hide Digits;
    NoDigits();
    MoreDigits(0, 1);
    MoreDigits(1, 0);
    MoreDigits(8, 3);
    MoreDigits(67, 5);
    MoreDigits(541, 5);
    MoreDigits(4333, 7);
    MoreDigits(34671, 0);
    MoreDigits(277368, 6);
    MoreDigits(2218950, 0);
    MoreDigits(17751600, 0);
    MoreDigits(142012800, 0);
  }

  lemma NumberIs(v: nat, w: nat, digits: seq<octet>)
    requires Digits(v) == digits && |digits| <= w
    ensures Number(v, w) == Zeros(w - |digits|) + digits + [0]
  {
  }

  lemma FixedNumbers()
    ensures |Digits(420)| <= 7 && Number(420, 7) == [48, 48, 48, 48, 54, 52, 52, 0]
    ensures |Digits(493)| <= 7 && Number(493, 7) == [48, 48, 48, 48, 55, 53, 53, 0]
    ensures |Digits(1136102400)| <= 11 && Number(1136102400, 11) == [49, 48, 51, 53, 53, 55, 48, 54, 48, 48, 48, 0]
  {
    hide Digits, Number;
    ModeDigits();
    TimeDigits();
    NumberIs(420, 7, [54, 52, 52]);
    NumberIs(493, 7, [55, 53, 53]);
    NumberIs(1136102400, 11, [49, 48, 51, 53, 53, 55, 48, 54, 48, 48, 48]);
    assert Zeros(4) == [48, 48, 48, 48];
  }

  /**
   * The fields of a header that do not depend on the file's name or size, byte for byte: mode 0644 or 0755, user and group
   * zero, a fixed time in January 2006, version "00", and "root" for both names.
   */
  lemma FixedFields(name: seq<octet>, isDir: bool, size: int)
    requires |name| <= 99
    ensures var h := Made(name, isDir, size);
            && Field(h, 100, 8) == (if isDir then [48, 48, 48, 48, 55, 53, 53, 0] else [48, 48, 48, 48, 54, 52, 52, 0])
            && Field(h, 108, 8) == [48, 48, 48, 48, 48, 48, 48, 0] && Field(h, 116, 8) == [48, 48, 48, 48, 48, 48, 48, 0]
            && Field(h, 136, 12) == [49, 48, 51, 53, 53, 55, 48, 54, 48, 48, 48, 0]
            && Field(h, 257, 8) == [117, 115, 116, 97, 114, 0, 48, 48]
            && Field(h, 265, 5) == [114, 111, 111, 116, 0] && Field(h, 297, 5) == [114, 111, 111, 116, 0]
  {
    hide Made, Digits, Number;
    var h := Made(name, isDir, size);
    FixedNumbers();
    Shows(name, isDir, size, 1);
    Shows(name, isDir, size, 2);
    Shows(name, isDir, size, 3);
    Shows(name, isDir, size, 5);
    Shows(name, isDir, size, 7);
    Shows(name, isDir, size, 8);
    Shows(name, isDir, size, 9);
    Shows(name, isDir, size, 10);
    assert Zeros(7) == [48, 48, 48, 48, 48, 48, 48];
    assert Field(h, 257, 8) == Field(h, 257, 6) + Field(h, 263, 2);
  }

  lemma ChecksumHolds(name: seq<octet>, isDir: bool, size: int)
    requires |name| <= 99
    ensures var h := Made(name, isDir, size); FieldValue(Field(h, 148, 8)) == Some(Sum(h, USTAR_HEADER_SIZE))
  {
    var u, h := Unsealed(name, isDir, size), Made(name, isDir, size);
    var sum := Chksum(u);
    NumbersFit(size, sum);
    FieldWritten(u, 148, Number(sum, 7));
    FieldRoundTrip(sum, 7, Field(h, 148, 8));
    SumIgnoresField(u, h, USTAR_HEADER_SIZE);
  }

  lemma SizeHolds(name: seq<octet>, isDir: bool, size: int)
    requires |name| <= 99
    ensures FieldValue(Field(Made(name, isDir, size), 124, 12)) == Some(Unsigned(size))
  {
    NumbersFit(size, 0);
    Shows(name, isDir, size, 4);
    FieldRoundTrip(Unsigned(size), 11, Field(Made(name, isDir, size), 124, 12));
  }

  /** A byte that no field covers is null. */
  lemma NullByte(name: seq<octet>, isDir: bool, size: int, f: nat, ws: seq<Write>)
    requires |name| <= 99 && f < USTAR_HEADER_SIZE && (f < 148 || 156 <= f) && ws == Fields(name, isDir, size)
    requires forall j: nat | j < |ws| :: Apart(ws[j], f, 1)
    ensures Made(name, isDir, size)[f] == 0
  {
    Untouched(Blank(), ws, f, 1);
    Sealed(name, isDir, size, f, 1);
    assert Made(name, isDir, size)[f] == Field(Made(name, isDir, size), f, 1)[0];
  }

  lemma OtherBytes(name: seq<octet>, isDir: bool, size: int)
    requires |name| <= 99
    ensures Made(name, isDir, size)[345] == 0 && (|name| < 99 ==> Made(name, isDir, size)[99] == 0)
  {
    var ws := Fields(name, isDir, size);
    NoField(name, isDir, size, ws);
    NullByte(name, isDir, size, 345, ws);
    if |name| < 99 {
      NullByte(name, isDir, size, 99, ws);
    }
  }

  lemma NoField(name: seq<octet>, isDir: bool, size: int, ws: seq<Write>)
    requires |name| <= 99 && ws == Fields(name, isDir, size)
    ensures forall j: nat | j < |ws| :: Apart(ws[j], 345, 1) && (|name| < 99 ==> Apart(ws[j], 99, 1))
  {
  }

  lemma NameHolds(name: seq<octet>, isDir: bool, size: int)
    requires |name| <= 99 && 0 !in name
    ensures var h := Made(name, isDir, size); h[99] == 0 && CString(Field(h, 0, 100)) == name
  {
    var h := Made(name, isDir, size);
    Shows(name, isDir, size, 0);
    OtherBytes(name, isDir, size);
    var s, n := Field(h, 0, 100), |name|;
    assert Field(h, 0, n + 1) == name + [0];
    assert s[..n + 1] == name + [0];
    assert s[n] == s[..n + 1][n] && s[..n] == s[..n + 1][..n];
    StringIs(s, name);
  }

  lemma {:induction false} StringIs(s: seq<octet>, name: seq<octet>)
    requires |name| < |s| && s[..|name|] == name && s[|name|] == 0 && 0 !in name
    ensures CString(s) == name
    decreases |name|
  {
    if name != [] {
      assert s[0] == name[0] && s[1..][..|name| - 1] == name[1..];
      StringIs(s[1..], name[1..]);
    }
  }

  lemma MarksHold(name: seq<octet>, isDir: bool, size: int)
    requires |name| <= 99
    ensures var h := Made(name, isDir, size);
            && !AllZeros(h) && Field(h, 257, 6) == USTAR && Field(h, 263, 2) == [48, 48]
            && h[156] == if isDir then DIRECTORY else REGULAR
  {
    var h := Made(name, isDir, size);
    Shows(name, isDir, size, 6);
    Shows(name, isDir, size, 7);
    Shows(name, isDir, size, 8);
    assert h[156] == Field(h, 156, 1)[0] && h[257] == Field(h, 257, 6)[0];
  }

  lemma NoNull(s: seq<octet>)
    requires 0 !in s
    ensures 0 !in Strip(s)
  {
    StripIsSuffix(s);
  }

  /** A header with the right marks and checksum, for the given entry. */
  ghost predicate Good(h: seq<octet>, name: seq<octet>, isDir: bool, size: nat) {
    && |h| == USTAR_HEADER_SIZE && !AllZeros(h) && Field(h, 257, 6) == USTAR && Field(h, 263, 2) == [48, 48]
    && h[156] == (if isDir then DIRECTORY else REGULAR) && h[345] == 0 && h[99] == 0
    && FieldValue(Field(h, 148, 8)) == Some(Sum(h, USTAR_HEADER_SIZE)) && FieldValue(Field(h, 124, 12)) == Some(size)
    && CString(Field(h, 0, 100)) == name
  }

  lemma GoodIsAccepted(h: seq<octet>, name: seq<octet>, isDir: bool, size: nat)
    requires Good(h, name, isDir, size)
    ensures Parse(h) == if isDir then Entry(Strip(name), true, 0)
                        else if size <= INT_MAX then Entry(Strip(name), false, size) else Bad(TooLarge)
  {
  }

  lemma MadeIsGood(name: seq<octet>, isDir: bool, size: int)
    requires |name| <= 99 && 0 !in name
    ensures Good(Made(name, isDir, size), name, isDir, Unsigned(size))
  {
    MarksHold(name, isDir, size);
    ChecksumHolds(name, isDir, size);
    NameHolds(name, isDir, size);
    OtherBytes(name, isDir, size);
    SizeHolds(name, isDir, size);
  }

  /**
   * Parsing a made header gives back the stripped name, the type and, for a regular file, the
   * size, which has to be an int that is not negative; a negative one makes the file too large.
   */
  lemma RoundTrip(fileName: seq<octet>, isDir: bool, size: int, h: seq<octet>)
    requires 0 !in fileName && |Strip(fileName)| <= 99 && -0x8000_0000 <= size <= INT_MAX
    requires h == Made(Strip(fileName), isDir, size)
    ensures Parse(h) == if isDir then Entry(Strip(fileName), true, 0)
                        else if size >= 0 then Entry(Strip(fileName), false, size)
                        else Bad(TooLarge)
  {
    NoNull(fileName);
    StripIsIdempotent(fileName);
    var name, n := Strip(fileName), Unsigned(size);
    UnsignedIs(size);
    MadeIsGood(name, isDir, size);
    GoodIsAccepted(h, name, isDir, n);
  }

  // ---- any header

  lemma NameEnds(h: seq<octet>)
    requires |h| == USTAR_HEADER_SIZE && h[99] == 0
    ensures |CString(Field(h, 0, 100))| <= 99
  {
    var f := Field(h, 0, 100);
    assert f[99] == 0;
    assert 0 in f[..100];
  }

  /**
   * Whatever the header, an entry that is accepted has a name that stays below the current directory, fits a header and
   * is stripped already, a size that is an int, and a header whose checksum agrees; making a header for it and parsing
   * that gives the same entry.
   */
  lemma AcceptedIsSafe(h: seq<octet>)
    requires |h| == USTAR_HEADER_SIZE && Parse(h).Entry?
    ensures var e := Parse(h);
            && e.name != [] && e.name != [DOT, DOT] && !Antisocial(e.name) && Strip(e.name) == e.name
            && |e.name| <= 99 && 0 !in e.name && e.size <= INT_MAX && (e.isDir ==> e.size == 0)
            && FieldValue(Field(h, 148, 8)) == Some(Sum(h, USTAR_HEADER_SIZE))
            && Parse(Made(e.name, e.isDir, e.size)) == e
  {
    hide Made, Sum, FieldValue, Antisocial, AllZeros, Strip;
    var name := CString(Field(h, 0, 100));
    NameEnds(h);
    StripIsSafe(name);
    StripIsIdempotent(name);
    StripIsSuffix(name);
    NoNull(name);
    var e := Parse(h);
    RoundTrip(e.name, e.isDir, e.size, Made(e.name, e.isDir, e.size));
  }

  lemma {:induction false} SumNotices(h: seq<octet>, h': seq<octet>, i: nat, n: nat)
    requires n <= |h| == |h'| && i < n && !(148 <= i < 156) && h'[i] != h[i]
    requires forall k: nat | k < n && k != i :: h'[k] == h[k]
    ensures Sum(h', n) != Sum(h, n)
  {
    if i == n - 1 {
      SumIgnoresField(h, h', n - 1);
    } else {
      SumNotices(h, h', i, n - 1);
    }
  }

  /** One wrong byte outside the checksum field turns an accepted header into one that is not. */
  lemma OneByteIsNoticed(h: seq<octet>, i: nat, b: octet)
    requires |h| == USTAR_HEADER_SIZE && Parse(h).Entry? && i < |h| && !(148 <= i < 156) && b != h[i]
    ensures !Parse(h[i := b]).Entry?
  {
    hide FieldValue, AllZeros, Strip;
    SumNotices(h, h[i := b], i, USTAR_HEADER_SIZE);
    assert Field(h[i := b], 148, 8) == Field(h, 148, 8);
  }
}
