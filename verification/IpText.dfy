/** Dotted-quad addresses as text and as four bytes. */
module IpText {
  import opened Wrappers
  import opened Bytes

  predicate IsDigit(c: char) {
    '0' <= c <= '9'
  }

  function DigitChar(d: int): char
    requires 0 <= d < 10
  {
    ('0' as int + d) as char
  }

  /** A byte in decimal, without leading zeros. */
  function FormatByte(b: Byte): string {
    if b < 10 then [DigitChar(b)]
    else if b < 100 then [DigitChar(b / 10), DigitChar(b % 10)]
    else [DigitChar(b / 100), DigitChar(b / 10 % 10), DigitChar(b % 10)]
  }

  /** The value of a string of digits. */
  function DigitsValue(s: string): Option<nat> {
    if s == "" then Some(0)
    else
      var c := s[|s| - 1];
      match DigitsValue(s[..|s| - 1])
      case Some(v) => if IsDigit(c) then Some(10 * v + (c as int - '0' as int)) else None
      case None => None
  }

  /** Parsing of a byte as the standard library does it: digits after an optional plus sign, leading
      zeros allowed, at most 255. */
  function ParseByte(s: string): Option<Byte> {
    var digits := if |s| > 1 && s[0] == '+' then s[1..] else s;
    if digits == "" then None
    else
      match DigitsValue(digits)
      case Some(v) => if v <= 255 then Some(v) else None
      case None => None
  }

  function Split(s: string): seq<string> {
    if s == "" then [""]
    else
      var parts := Split(s[1..]);
      if s[0] == '.' then [""] + parts else [[s[0]] + parts[0]] + parts[1..]
  }

  function ParsedParts(parts: seq<string>): seq<Byte> {
    if parts == [] then []
    else
      var rest := ParsedParts(parts[1..]);
      match ParseByte(parts[0])
      case Some(b) => [b] + rest
      case None => rest
  }

  /** The four bytes of an address text, or nothing if it is not four readable parts. */
  function IpToBytes(ip: string): seq<Byte> {
    var parts := ParsedParts(Split(ip));
    if |parts| == 4 && |Split(ip)| == 4 then parts else []
  }

  function BytesToIp(b: seq<Byte>): string {
    if |b| == 4 then FormatByte(b[0]) + "." + FormatByte(b[1]) + "." + FormatByte(b[2]) + "." + FormatByte(b[3]) else ""
  }

  /** Empty, or four decimal bytes without leading zeros or signs, joined by dots. */
  ghost predicate Canonical(ip: string) {
    ip == "" || exists a: Byte, b: Byte, c: Byte, d: Byte :: ip == Quad(a, b, c, d)
  }

  function Quad(a: Byte, b: Byte, c: Byte, d: Byte): string {
    FormatByte(a) + "." + FormatByte(b) + "." + FormatByte(c) + "." + FormatByte(d)
  }

  lemma {:induction false} SplitOneMore(a: string, rest: string)
    requires '.' !in a
    ensures Split(a + "." + rest) == [a] + Split(rest)
  {
    var s := a + "." + rest;
    if a == "" {
      assert s[1..] == rest && s[0] == '.';
    } else {
      assert s[0] == a[0] && a[0] in a && s[1..] == a[1..] + "." + rest;
      SplitOneMore(a[1..], rest);
      assert [a[0]] + a[1..] == a;
    }
  }

  lemma {:induction false} SplitSingle(a: string)
    requires '.' !in a
    ensures Split(a) == [a]
  {
    if a == "" {
    } else {
      assert a[0] in a;
      SplitSingle(a[1..]);
      assert [a[0]] + a[1..] == a;
    }
  }

  lemma FormatHasNoDot(b: Byte)
    ensures '.' !in FormatByte(b) && FormatByte(b) != "" && FormatByte(b)[0] != '+'
  {
  }

  lemma DigitValue(s: string, d: int)
    requires 0 <= d < 10
    ensures DigitsValue(s + [DigitChar(d)]) ==
            match DigitsValue(s) case Some(v) => Some(10 * v + d) case None => None
  {
    assert (s + [DigitChar(d)])[..|s|] == s;
  }

  lemma ThreeDigits(h: int, t: int, u: int)
    requires 0 <= h < 10 && 0 <= t < 10 && 0 <= u < 10
    ensures DigitsValue([DigitChar(u)]) == Some(u)
    ensures DigitsValue([DigitChar(t), DigitChar(u)]) == Some(10 * t + u)
    ensures DigitsValue([DigitChar(h), DigitChar(t), DigitChar(u)]) == Some(100 * h + 10 * t + u)
  {
    DigitValue([], u);
    DigitValue([], t);
    DigitValue([], h);
    DigitValue([DigitChar(t)], u);
    DigitValue([DigitChar(h)], t);
    DigitValue([DigitChar(h), DigitChar(t)], u);
    assert [] + [DigitChar(u)] == [DigitChar(u)] && [] + [DigitChar(t)] == [DigitChar(t)];
    assert [] + [DigitChar(h)] == [DigitChar(h)] && [DigitChar(t)] + [DigitChar(u)] == [DigitChar(t), DigitChar(u)];
    assert [DigitChar(h)] + [DigitChar(t)] == [DigitChar(h), DigitChar(t)];
    assert [DigitChar(h), DigitChar(t)] + [DigitChar(u)] == [DigitChar(h), DigitChar(t), DigitChar(u)];
  }

  lemma ParseFormatted(b: Byte)
    ensures ParseByte(FormatByte(b)) == Some(b)
  {
    FormatHasNoDot(b);
    ThreeDigits(b / 100, b / 10 % 10, b % 10);
  }

  lemma SplitQuad(a: Byte, b: Byte, c: Byte, d: Byte)
    ensures Split(Quad(a, b, c, d)) == [FormatByte(a), FormatByte(b), FormatByte(c), FormatByte(d)]
  {
    hide Split, FormatByte;
    var fa, fb, fc, fd := FormatByte(a), FormatByte(b), FormatByte(c), FormatByte(d);
    FormatHasNoDot(a);
    FormatHasNoDot(b);
    FormatHasNoDot(c);
    FormatHasNoDot(d);
    assert Quad(a, b, c, d) == fa + "." + (fb + "." + (fc + "." + fd));
    SplitOneMore(fa, fb + "." + (fc + "." + fd));
    SplitOneMore(fb, fc + "." + fd);
    SplitOneMore(fc, fd);
    SplitSingle(fd);
  }

  /** Four bytes come back from their text. */
  lemma QuadRoundTrip(a: Byte, b: Byte, c: Byte, d: Byte)
    ensures IpToBytes(Quad(a, b, c, d)) == [a, b, c, d]
  {
    var parts := [FormatByte(a), FormatByte(b), FormatByte(c), FormatByte(d)];
    SplitQuad(a, b, c, d);
    PartAhead(d, []);
    PartAhead(c, [FormatByte(d)]);
    PartAhead(b, [FormatByte(c), FormatByte(d)]);
    PartAhead(a, [FormatByte(b), FormatByte(c), FormatByte(d)]);
    assert parts == [FormatByte(a)] + ([FormatByte(b)] + ([FormatByte(c)] + ([FormatByte(d)] + [])));
  }

  lemma PartAhead(b: Byte, rest: seq<string>)
    ensures ParsedParts([FormatByte(b)] + rest) == [b] + ParsedParts(rest)
  {
    ParseFormatted(b);
    assert ([FormatByte(b)] + rest)[1..] == rest;
  }

  /** An address text survives the trip through bytes exactly when it is empty or canonical. */
  lemma IpRoundTrip(ip: string)
    ensures BytesToIp(IpToBytes(ip)) == ip <==> Canonical(ip)
  {
    var parts := IpToBytes(ip);
    if |parts| == 4 {
      assert BytesToIp(parts) == Quad(parts[0], parts[1], parts[2], parts[3]);
    }
    if Canonical(ip) && ip != "" {
      var a: Byte, b: Byte, c: Byte, d: Byte :| ip == Quad(a, b, c, d);
      QuadRoundTrip(a, b, c, d);
    }
  }
}
