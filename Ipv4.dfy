/** IPv4 addresses and their dotted-decimal text form: the validator of the
    validate endpoint (main.go:81) and the text the addresses take inside the
    JSON column of the audit table (main.go:136, main.go:183). */
module Ipv4 {
  import opened Wrappers
  import opened Text

  type Octet = n: nat | n < 256

  /** An IPv4 address, four octets. */
  datatype Ip4 = Ip4(a: Octet, b: Octet, c: Octet, d: Octet)

  predicate IsDigit(c: char) { '0' <= c <= '9' }

  predicate AllDigits(s: string) { forall i :: 0 <= i < |s| ==> IsDigit(s[i]) }

  function DigitChar(d: nat): (c: char)
    requires d < 10
    ensures IsDigit(c)
  {
    (48 + d) as char
  }

  function DigitValue(c: char): (d: nat)
    requires IsDigit(c)
    ensures d < 10 && DigitChar(d) == c
  {
    c as int - 48
  }

  /** A decimal field in standard notation: digits only, no leading zero unless it is "0". */
  predicate Canonical(f: string)
  {
    |f| >= 1 && AllDigits(f) && (|f| == 1 || f[0] != '0')
  }

  /** The value of a string of decimal digits. */
  function Value(f: string): nat
    requires AllDigits(f)
    decreases |f|
  {
    if |f| == 0 then 0 else Value(f[..|f| - 1]) * 10 + DigitValue(f[|f| - 1])
  }

  /** The decimal text of `n`, without leading zeros. */
  function Decimal(n: nat): (r: string)
    ensures |r| >= 1 && AllDigits(r)
    ensures n == 0 ==> r == "0"
    ensures n > 0 ==> r[0] != '0'
  {
    if n < 10 then [DigitChar(n)] else Decimal(n / 10) + [DigitChar(n % 10)]
  }

  lemma DecimalCanonical(n: nat)
    ensures Canonical(Decimal(n))
  {
  }

  /** Reading back the decimal text of a number gives the number. */
  lemma {:induction false} ValueOfDecimal(n: nat)
    ensures Value(Decimal(n)) == n
  {
    if n >= 10 {
      var p := Decimal(n / 10);
      var s := p + [DigitChar(n % 10)];
      assert Decimal(n) == s;
      assert s[..|s| - 1] == p;
      ValueOfDecimal(n / 10);
    }
  }

  /** A digit string that does not start with '0' has a positive value. */
  lemma {:induction false} LeadingDigitPositive(f: string)
    requires |f| >= 1 && AllDigits(f) && f[0] != '0'
    ensures Value(f) >= 1
    decreases |f|
  {
    if |f| > 1 {
      LeadingDigitPositive(f[..|f| - 1]);
    }
  }

  /** Every field in standard notation is the decimal text of its value. */
  lemma {:induction false} DecimalOfValue(f: string)
    requires Canonical(f)
    ensures Decimal(Value(f)) == f
    decreases |f|
  {
    if |f| > 1 {
      var p := f[..|f| - 1];
      var d := DigitValue(f[|f| - 1]);
      LeadingDigitPositive(p);
      DecimalOfValue(p);
      var v := Value(f);
      assert v == Value(p) * 10 + d;
      assert v / 10 == Value(p) && v % 10 == d;
      assert p + [f[|f| - 1]] == f;
    }
  }

  /** One field of a dotted-decimal address: standard notation and at most 255. */
  function ParseOctet(f: string): Option<Octet>
  {
    if Canonical(f) && Value(f) < 256 then Some(Value(f)) else None
  }

  /** The dotted-decimal text of an address, as Go's net.IP.String writes an IPv4 address. */
  function Format(ip: Ip4): string
  {
    Join([Decimal(ip.a), Decimal(ip.b), Decimal(ip.c), Decimal(ip.d)], '.')
  }

  /** The address a dotted-decimal text denotes: four fields separated by '.', each an
      octet in standard notation (the IPv4 branch of Go's net.ParseIP). */
  function ParseIp(s: string): Option<Ip4>
  {
    var f := Split(s, '.');
    if |f| == 4 && ParseOctet(f[0]).Some? && ParseOctet(f[1]).Some?
                && ParseOctet(f[2]).Some? && ParseOctet(f[3]).Some?
    then Some(Ip4(ParseOctet(f[0]).value, ParseOctet(f[1]).value,
                  ParseOctet(f[2]).value, ParseOctet(f[3]).value))
    else None
  }

  /** The validator's verdict (main.go:81): the text is an IPv4 address. */
  predicate IsIPv4(s: string)
  {
    ParseIp(s).Some?
  }

  lemma ParseOctetOfDecimal(n: Octet)
    ensures ParseOctet(Decimal(n)) == Some(n)
  {
    DecimalCanonical(n);
    ValueOfDecimal(n);
  }

  lemma ParsedOctetIsDecimal(f: string, n: Octet)
    requires ParseOctet(f) == Some(n)
    ensures Decimal(n) == f
  {
    DecimalOfValue(f);
  }

  /** The formatted text holds only digits and dots. */
  lemma FormatAlphabet(ip: Ip4)
    ensures forall i :: 0 <= i < |Format(ip)| ==> IsDigit(Format(ip)[i]) || Format(ip)[i] == '.'
  {
    var da, db, dc, dd := Decimal(ip.a), Decimal(ip.b), Decimal(ip.c), Decimal(ip.d);
    assert [da, db, dc, dd][1..] == [db, dc, dd];
    assert [db, dc, dd][1..] == [dc, dd];
    assert [dc, dd][1..] == [dd];
    assert Join([dc, dd], '.') == dc + ['.'] + dd;
    assert Join([db, dc, dd], '.') == db + ['.'] + (dc + ['.'] + dd);
    assert Format(ip) == da + ['.'] + (db + ['.'] + (dc + ['.'] + dd));
  }

  /** Parsing the formatted text of an address gives the address back. */
  lemma {:induction false} ParseFormat(ip: Ip4)
    ensures ParseIp(Format(ip)) == Some(ip)
  {
    var parts := [Decimal(ip.a), Decimal(ip.b), Decimal(ip.c), Decimal(ip.d)];
    forall i | 0 <= i < 4 ensures '.' !in parts[i] {
      assert AllDigits(parts[i]);
    }
    SplitJoin(parts, '.');
    ParseOctetOfDecimal(ip.a);
    ParseOctetOfDecimal(ip.b);
    ParseOctetOfDecimal(ip.c);
    ParseOctetOfDecimal(ip.d);
  }

  /** Every text the validator accepts is the formatted text of the address it denotes:
      leading zeros, extra fields and stray characters are all refused. */
  lemma {:induction false} FormatParse(s: string, ip: Ip4)
    requires ParseIp(s) == Some(ip)
    ensures Format(ip) == s
  {
    var f := Split(s, '.');
    ParsedOctetIsDecimal(f[0], ip.a);
    ParsedOctetIsDecimal(f[1], ip.b);
    ParsedOctetIsDecimal(f[2], ip.c);
    ParsedOctetIsDecimal(f[3], ip.d);
    assert [f[0], f[1], f[2], f[3]] == f;
    JoinSplit(s, '.');
  }

  /** The validator accepts exactly the texts that are some address's dotted-decimal form. */
  lemma IsIPv4Exactly(s: string)
    ensures IsIPv4(s) <==> exists ip: Ip4 :: Format(ip) == s
  {
    if IsIPv4(s) {
      FormatParse(s, ParseIp(s).value);
    }
    if ip: Ip4 :| Format(ip) == s {
      ParseFormat(ip);
    }
  }

  /** A private address is accepted. */
  lemma AcceptsPrivateAddress()
    ensures IsIPv4("192.168.1.1")
  {
    assert Decimal(1) == "1";
    assert Decimal(19) == "19";
    assert Decimal(192) == "192";
    assert Decimal(16) == "16";
    assert Decimal(168) == "168";
    assert Format(Ip4(192, 168, 1, 1)) == "192.168.1.1";
    ParseFormat(Ip4(192, 168, 1, 1));
  }

  /** An octet over 255 is refused. */
  lemma RefusesLargeOctet()
    ensures !IsIPv4("999.1.1.1")
  {
    assert "999.1.1.1" == "999" + ['.'] + "1.1.1";
    SplitAfterPiece("999", "1.1.1", '.');
    assert Value("999") == 999 by {
      assert "999"[..2] == "99" && "99"[..1] == "9";
    }
  }

  /** IPv6 text is refused: it has no four dot-separated fields. */
  lemma RefusesIpv6Text()
    ensures !IsIPv4("::1")
  {
  }

  /** The empty string is refused. */
  lemma RefusesEmpty()
    ensures !IsIPv4("")
  {
  }

  /** A field with a leading zero is refused. */
  lemma RefusesLeadingZero()
    ensures !IsIPv4("01.2.3.4")
  {
  }
}
