/**
 The part of Go's net.IP the watcher uses: IPv4 addresses, their dotted-quad
 rendering (IP.String) and parsing of dotted quads (net.ParseIP).
 */
module Net {
  import opened Wrappers
  import opened GoStrings

  type Byte = b: nat | b < 256

  type Port = p: nat | p < 0x1_0000

  /** An IPv4 address in presentation order: a.b.c.d. */
  datatype IPv4 = IPv4(a: Byte, b: Byte, c: Byte, d: Byte)

  const Unspecified: IPv4 := IPv4(0, 0, 0, 0)
  const Loopback: IPv4 := IPv4(127, 0, 0, 1)

  function Octets(ip: IPv4): seq<string> {
    [Decimal(ip.a), Decimal(ip.b), Decimal(ip.c), Decimal(ip.d)]
  }

  /** IP.String for an IPv4 address: the four octets in decimal joined by dots. */
  function IPString(ip: IPv4): string {
    JoinWith(Octets(ip), '.')
  }

  /** IP.String of a possibly nil IP; Go renders nil as "<nil>". */
  function IPText(ip: Option<IPv4>): string {
    match ip
    case None => "<nil>"
    case Some(v) => IPString(v)
  }

  /**
   One dotted-quad field as net.ParseIP accepts it: decimal digits only, no
   leading zero except "0" itself, value at most 255.
   */
  function ParseOctet(f: string): (r: Option<Byte>)
    ensures r.Some? ==> Decimal(r.value) == f
  {
    if |f| == 0 || !AllDigits(f) || (|f| > 1 && f[0] == '0') then None
    else
      var v := DecimalValue(f);
      if v > 255 then None
      else DecimalCanonical(f); Some(v)
  }

  /**
   net.ParseIP on a string without ':' (Go then takes its IPv4 branch): four
   fields separated by '.', each a valid octet; anything else is nil.
   */
  function ParseIP(s: string): (r: Option<IPv4>)
    requires ':' !in s
  {
    var parts := Split(s, '.');
    if |parts| != 4 then None
    else
      match (ParseOctet(parts[0]), ParseOctet(parts[1]), ParseOctet(parts[2]), ParseOctet(parts[3]))
      case (Some(a), Some(b), Some(c), Some(d)) => Some(IPv4(a, b, c, d))
      case _ => None
  }

  /** The rendering of an address never contains ':' (nor any other separator but '.'). */
  lemma IPStringShape(ip: IPv4)
    ensures ':' !in IPString(ip)
    ensures AllDigitsOrDots(IPString(ip))
  {
    var o := Octets(ip);
    assert JoinWith(o[3..], '.') == o[3];
    assert JoinWith(o[2..], '.') == o[2] + "." + o[3] by {
      assert o[2..][1..] == o[3..];
    }
    assert JoinWith(o[1..], '.') == o[1] + "." + o[2] + "." + o[3] by {
      assert o[1..][1..] == o[2..];
    }
    assert IPString(ip) == o[0] + "." + o[1] + "." + o[2] + "." + o[3];
  }

  predicate AllDigitsOrDots(s: string) {
    forall i :: 0 <= i < |s| ==> IsDigit(s[i]) || s[i] == '.'
  }

  /** Parsing the rendering of an address gives the address back. */
  lemma {:induction false} ParseIPString(ip: IPv4)
    ensures ':' !in IPString(ip)
    ensures ParseIP(IPString(ip)) == Some(ip)
  {
    IPStringShape(ip);
    var o := Octets(ip);
    forall i | 0 <= i < 4
      ensures Avoids(o[i], {'.'})
    {
      assert AllDigits(o[i]);
    }
    SplitJoin(o, '.', {'.'});
    OctetRoundTrip(ip.a);
    OctetRoundTrip(ip.b);
    OctetRoundTrip(ip.c);
    OctetRoundTrip(ip.d);
  }

  lemma OctetRoundTrip(n: Byte)
    ensures ParseOctet(Decimal(n)) == Some(n)
  {
  }

  /** An address that parses is written in canonical form: rendering it restores the string. */
  lemma {:induction false} ParseIPCanonical(s: string)
    requires ':' !in s && ParseIP(s).Some?
    ensures IPString(ParseIP(s).value) == s
  {
    var parts := Split(s, '.');
    JoinSplit(s, '.');
    assert Octets(ParseIP(s).value) == parts;
  }

  /** Distinct addresses render differently. */
  lemma IPStringInjective(x: IPv4, y: IPv4)
    requires IPString(x) == IPString(y)
    ensures x == y
  {
    ParseIPString(x);
    ParseIPString(y);
  }

  /** Distinct possibly-nil addresses render differently ("<nil>" is no dotted quad). */
  lemma {:induction false} IPTextInjective(x: Option<IPv4>, y: Option<IPv4>)
    requires IPText(x) == IPText(y)
    ensures x == y
  {
    match (x, y)
    case (Some(u), Some(v)) => IPStringInjective(u, v);
    case (None, None) =>
    case (Some(u), None) => NilIsNoAddress(u);
    case (None, Some(v)) => NilIsNoAddress(v);
  }

  lemma NilIsNoAddress(ip: IPv4)
    ensures IPString(ip) != "<nil>"
  {
    IPStringShape(ip);
    assert "<nil>"[0] == '<';
  }
}
