/** The string formatting the device-identity code relies on: Python's
    `f"{v:08X}"` and `f"{n}"`, ASCII decoding of register bytes and
    `str.strip("\x00")`. */
module Text {
  import opened Bytes
  import opened SBusErrors

  const HEX_DIGITS: string := "0123456789ABCDEF"

  function Pow16(n: nat): (p: nat)
    ensures p >= 1
  {
    if n == 0 then 1 else 16 * Pow16(n - 1)
  }

  /** The `n` upper-case hexadecimal digits of `v`, most significant first,
      zero-padded (`f"{v:0nX}"` for `v < 16^n`). */
  function HexDigits(v: nat, n: nat): (s: string)
    ensures |s| == n
    ensures forall k :: 0 <= k < n ==> s[k] in HEX_DIGITS
  {
    if n == 0 then "" else HexDigits(v / 16, n - 1) + [HEX_DIGITS[v % 16]]
  }

  /** `f"{v:08X}"` of a 32-bit register value. */
  function Hex8(v: Word32): (s: string)
  {
    HexDigits(v, 8)
  }

  function HexValue(c: char): (d: nat)
    ensures d < 16
  {
    if '0' <= c <= '9' then c as int - '0' as int
    else if 'A' <= c <= 'F' then c as int - 'A' as int + 10
    else 0
  }

  /** Reads a string of upper-case hexadecimal digits back as a number. */
  function ParseHex(s: string): nat
  {
    if s == [] then 0 else 16 * ParseHex(s[..|s| - 1]) + HexValue(s[|s| - 1])
  }

  lemma {:induction false} ParseHexDigits(v: nat, n: nat)
    requires v < Pow16(n)
    ensures ParseHex(HexDigits(v, n)) == v
  {
    if n > 0 {
      var s := HexDigits(v, n);
      assert s[..n - 1] == HexDigits(v / 16, n - 1);
      ParseHexDigits(v / 16, n - 1);
      assert HexValue(HEX_DIGITS[v % 16]) == v % 16;
    }
  }

  /** The serial-number halves are exactly eight hex digits and read back
      as the register they were formatted from. */
  lemma Hex8RoundTrip(v: Word32)
    ensures |Hex8(v)| == 8 && ParseHex(Hex8(v)) == v
  {
    assert Pow16(8) == 0x1_0000_0000;
    ParseHexDigits(v, 8);
  }

  /** Decimal digits of `n` without leading zeros (`f"{n}"`). */
  function Decimal(n: nat): (s: string)
    ensures |s| >= 1
    ensures forall k :: 0 <= k < |s| ==> '0' <= s[k] <= '9'
  {
    if n < 10 then ['0' + n as char]
    else Decimal(n / 10) + ['0' + (n % 10) as char]
  }

  function ParseDecimal(s: string): nat
  {
    if s == [] then 0
    else 10 * ParseDecimal(s[..|s| - 1]) + (if '0' <= s[|s| - 1] <= '9' then s[|s| - 1] as int - '0' as int else 0)
  }

  /** Decimal output reads back as its number and has no leading zero. */
  lemma {:induction false} DecimalRoundTrip(n: nat)
    ensures ParseDecimal(Decimal(n)) == n
    ensures Decimal(n)[0] == '0' ==> n == 0
  {
    if n >= 10 {
      var s := Decimal(n);
      assert s[..|s| - 1] == Decimal(n / 10);
      DecimalRoundTrip(n / 10);
    }
  }

  /** Decimal strings never contain the '.' separator. */
  lemma DecimalHasNoDot(n: nat)
    ensures '.' !in Decimal(n)
  {
  }

  /** The text before the first '.' and the text after it (all of `s` and
      nothing when there is no dot). */
  function SplitAtDot(s: string): (parts: (string, string))
    ensures '.' !in parts.0
  {
    if s == [] then ([], [])
    else if s[0] == '.' then ([], s[1..])
    else
      var rest := SplitAtDot(s[1..]);
      ([s[0]] + rest.0, rest.1)
  }

  /** Splitting a dot-free head joined by a dot to any tail gives them back. */
  lemma {:induction false} SplitAtDotJoin(head: string, tail: string)
    requires '.' !in head
    ensures SplitAtDot(head + "." + tail) == (head, tail)
  {
    var s := head + "." + tail;
    if head == [] {
      assert s[0] == '.' && s[1..] == tail;
    } else {
      assert s[0] == head[0] != '.';
      assert s[1..] == head[1..] + "." + tail;
      SplitAtDotJoin(head[1..], tail);
      assert [head[0]] + head[1..] == head;
    }
  }

  /** `bytes.decode("ascii")`: strict decoding fails on any byte >= 0x80. */
  function AsciiStrict(b: Bytes): (r: Result<string>)
    ensures r.Ok? <==> forall k :: 0 <= k < |b| ==> b[k] < 0x80
    ensures r.Err? ==> r.error == UnicodeError
    ensures r.Ok? ==> |r.value| == |b| && forall k :: 0 <= k < |b| ==> r.value[k] as int == b[k]
  {
    if b == [] then Ok([])
    else if b[0] >= 0x80 then Err(UnicodeError)
    else match AsciiStrict(b[1..])
      case Ok(rest) => Ok([b[0] as char] + rest)
      case Err(e) => Err(e)
  }

  /** `bytes.decode("ascii", errors="ignore")`: bytes >= 0x80 are dropped. */
  function AsciiIgnore(b: Bytes): (s: string)
    ensures |s| <= |b|
    ensures forall k :: 0 <= k < |s| ==> s[k] as int < 0x80
  {
    if b == [] then []
    else if b[0] >= 0x80 then AsciiIgnore(b[1..])
    else [b[0] as char] + AsciiIgnore(b[1..])
  }

  /** Without any high byte, lenient decoding agrees with strict decoding. */
  lemma {:induction false} AsciiIgnoreAgrees(b: Bytes)
    requires AsciiStrict(b).Ok?
    ensures AsciiIgnore(b) == AsciiStrict(b).value
  {
    if b != [] {
      AsciiIgnoreAgrees(b[1..]);
    }
  }

  /** Lenient decoding works byte by byte: one byte decodes to itself
      below 0x80 and to nothing otherwise ... */
  lemma AsciiIgnoreByte(x: Byte)
    ensures AsciiIgnore([x]) == if x < 0x80 then [x as char] else []
  {
  }

  /** ... and the decoding of a concatenation is the concatenation of the
      decodings, so no byte is dropped or kept because of its neighbours. */
  lemma {:induction false} AsciiIgnoreAppend(a: Bytes, b: Bytes)
    ensures AsciiIgnore(a + b) == AsciiIgnore(a) + AsciiIgnore(b)
  {
    if a == [] {
      assert a + b == b;
    } else {
      assert (a + b)[0] == a[0];
      assert (a + b)[1..] == a[1..] + b;
      AsciiIgnoreAppend(a[1..], b);
    }
  }

  function Nuls(n: nat): (s: string)
    ensures |s| == n && forall k :: 0 <= k < n ==> s[k] == '\0'
  {
    seq(n, _ => '\0')
  }

  function StripLeadingNul(s: string): (r: string)
    ensures |r| <= |s| && s == Nuls(|s| - |r|) + r
    ensures r == [] || r[0] != '\0'
  {
    if s != [] && s[0] == '\0' then
      var r := StripLeadingNul(s[1..]);
      assert s == ['\0'] + s[1..];
      assert ['\0'] + Nuls(|s| - 1 - |r|) == Nuls(|s| - |r|);
      r
    else
      assert Nuls(0) == [];
      s
  }

  function StripTrailingNul(s: string): (r: string)
    ensures |r| <= |s| && s == r + Nuls(|s| - |r|)
    ensures r == [] || r[|r| - 1] != '\0'
  {
    if s != [] && s[|s| - 1] == '\0' then
      var r := StripTrailingNul(s[..|s| - 1]);
      assert s == s[..|s| - 1] + ['\0'];
      assert Nuls(|s| - 1 - |r|) + ['\0'] == Nuls(|s| - |r|);
      r
    else
      assert Nuls(0) == [];
      s
  }

  /** `s.strip("\x00")` */
  function StripNul(s: string): (r: string)
  {
    StripTrailingNul(StripLeadingNul(s))
  }

  /** Stripping removes NULs from both ends and nothing else: the input is
      the result framed by two runs of NULs, and the result neither starts
      nor ends with a NUL. */
  lemma StripNulFrames(s: string)
    ensures var r, i := StripNul(s), |s| - |StripLeadingNul(s)|;
      i + |r| <= |s| && s == Nuls(i) + r + Nuls(|s| - i - |r|)
    ensures var r := StripNul(s); r == [] || (r[0] != '\0' && r[|r| - 1] != '\0')
  {
    var l := StripLeadingNul(s);
    var r := StripTrailingNul(l);
    var a, c := Nuls(|s| - |l|), Nuls(|l| - |r|);
    assert a + (r + c) == a + r + c;
    if r != [] {
      assert r[0] == l[0];
    }
  }
}
