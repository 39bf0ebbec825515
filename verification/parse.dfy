/**
 The endpoint parser of connections/parse.go: a /proc/net/tcp token
 `AABBCCDD:PPPP` holds an IPv4 address as eight hex digits in little-endian
 byte order and a port as four hex digits in big-endian order.

 The Go code never checks how many bytes the hex decoder produced, so a
 13-character token with its single colon anywhere but at position 8 indexes
 past the end of a byte slice, which is a run-time panic in Go. The model
 makes that outcome explicit (`IndexPanic`) instead of excluding it.
 */
module Parse {
  import opened Wrappers
  import opened GoStrings
  import opened Net

  datatype Endpoint = Endpoint(ip: IPv4, port: Port)

  datatype ParseError =
    | BadLength(length: nat)   // the token is not 13 characters long
    | BadSplit(parts: nat)     // splitting on ':' does not give two parts
    | BadHex                   // hex.DecodeString failed (odd length or non-hex digit)

  /** What a parse routine does: return a value, return an error, or panic. */
  datatype Parsed<+T> = Ok(value: T) | Err(error: ParseError) | IndexPanic

  const TokenLength: nat := 13

  predicate IsHexDigit(c: char) {
    '0' <= c <= '9' || 'a' <= c <= 'f' || 'A' <= c <= 'F'
  }

  predicate AllHex(s: string) {
    forall i :: 0 <= i < |s| ==> IsHexDigit(s[i])
  }

  function HexValue(c: char): (v: nat)
    requires IsHexDigit(c)
    ensures v < 16
  {
    if '0' <= c <= '9' then c as int - '0' as int
    else if 'a' <= c <= 'f' then c as int - 'a' as int + 10
    else c as int - 'A' as int + 10
  }

  /** The upper-case hex digit of a nibble, as the kernel prints it. */
  function HexDigit(v: nat): (c: char)
    requires v < 16
    ensures IsHexDigit(c) && HexValue(c) == v
  {
    if v < 10 then ('0' as int + v) as char else ('A' as int + v - 10) as char
  }

  /**
   hex.DecodeString: succeeds exactly on strings of even length made of hex
   digits (either case), producing one byte per pair of digits.
   */
  function HexDecode(s: string): (r: Option<seq<Byte>>)
    ensures r.Some? <==> |s| % 2 == 0 && AllHex(s)
    ensures r.Some? ==> 2 * |r.value| == |s|
    decreases |s|
  {
    if |s| == 0 then Some([])
    else if |s| == 1 || !IsHexDigit(s[0]) || !IsHexDigit(s[1]) then None
    else
      match HexDecode(s[2..])
      case None =>
        assert !AllHex(s[2..]) || |s[2..]| % 2 == 1;
        None
      case Some(rest) => Some([HexValue(s[0]) * 16 + HexValue(s[1])] + rest)
  }

  /** Upper-case hex encoding, two digits per byte. */
  function HexEncode(bytes: seq<Byte>): (s: string)
    ensures |s| == 2 * |bytes| && AllHex(s)
    decreases |bytes|
  {
    if |bytes| == 0 then ""
    else [HexDigit(bytes[0] / 16), HexDigit(bytes[0] % 16)] + HexEncode(bytes[1..])
  }

  function UpperChar(c: char): char {
    if 'a' <= c <= 'f' then (c as int - 32) as char else c
  }

  /** `s` with its lower-case hex letters upper-cased. */
  function UpperHex(s: string): (r: string)
    ensures |r| == |s|
    decreases |s|
  {
    if |s| == 0 then "" else [UpperChar(s[0])] + UpperHex(s[1..])
  }

  /**
   parseIPv4: the decoded bytes are reversed into dotted order. A string that
   does not decode is an error; one that decodes to fewer than four bytes
   panics on the unchecked index; an eight-digit string is the little-endian
   hex of the address it yields.
   */
  function ParseIPv4(s: string): (r: Parsed<IPv4>)
    ensures r.Err? <==> !(|s| % 2 == 0 && AllHex(s))
    ensures r.Err? ==> r.error == BadHex
    ensures r.IndexPanic? <==> |s| % 2 == 0 && AllHex(s) && |s| < 8
    ensures r.Ok? && |s| == 8 ==> HexEncode([r.value.d, r.value.c, r.value.b, r.value.a]) == UpperHex(s)
  {
    match HexDecode(s)
    case None => Err(BadHex)
    case Some(bytes) =>
      if |bytes| < 4 then IndexPanic
      else
        HexDecodeCanonical(s);
        assert |s| == 8 ==> bytes == [bytes[0], bytes[1], bytes[2], bytes[3]];
        Ok(IPv4(bytes[3], bytes[2], bytes[1], bytes[0]))
  }

  /**
   parsePort: the first two decoded bytes, big-endian. A string that does not
   decode is an error; one that decodes to fewer than two bytes panics; a
   four-digit string is the big-endian hex of the port it yields.
   */
  function ParsePort(s: string): (r: Parsed<Port>)
    ensures r.Err? <==> !(|s| % 2 == 0 && AllHex(s))
    ensures r.Err? ==> r.error == BadHex
    ensures r.IndexPanic? <==> |s| % 2 == 0 && AllHex(s) && |s| < 4
    ensures r.Ok? && |s| == 4 ==> HexEncode([r.value / 256, r.value % 256]) == UpperHex(s)
  {
    match HexDecode(s)
    case None => Err(BadHex)
    case Some(bytes) =>
      if |bytes| < 2 then IndexPanic
      else
        var hi: nat := bytes[0];
        var port := hi * 256 + bytes[1];
        assert port / 256 == bytes[0] && port % 256 == bytes[1];
        HexDecodeCanonical(s);
        assert |s| == 4 ==> bytes == [bytes[0], bytes[1]];
        Ok(port)
  }

  /** parseEndpoint: length check, split on ':', then address and port. */
  function ParseEndpoint(ep: string): (r: Parsed<Endpoint>)
    ensures |ep| != TokenLength ==> r == Err(BadLength(|ep|))
    ensures |ep| == TokenLength && CountIn(ep, {':'}) != 1 ==> r == Err(BadSplit(CountIn(ep, {':'}) + 1))
  {
    if |ep| != TokenLength then Err(BadLength(|ep|))
    else
      var parts := Split(ep, ':');
      if |parts| != 2 then Err(BadSplit(|parts|))
      else
        match ParseIPv4(parts[0])
        case Err(e) => Err(e)
        case IndexPanic => IndexPanic
        case Ok(ip) =>
          match ParsePort(parts[1])
          case Err(e) => Err(e)
          case IndexPanic => IndexPanic
          case Ok(port) => Ok(Endpoint(ip, port))
  }

  /** The token the kernel prints for an endpoint. */
  function EncodeEndpoint(e: Endpoint): string {
    HexEncode([e.ip.d, e.ip.c, e.ip.b, e.ip.a]) + ":" + HexEncode([e.port / 256, e.port % 256])
  }

  /** The shape of a token that parses: eight hex digits, ':', four hex digits. */
  predicate WellFormedToken(ep: string) {
    |ep| == TokenLength && ep[8] == ':' && AllHex(ep[..8]) && AllHex(ep[9..])
  }

  lemma {:induction false} HexRoundTrip(bytes: seq<Byte>)
    ensures HexDecode(HexEncode(bytes)) == Some(bytes)
    decreases |bytes|
  {
    if |bytes| > 0 {
      var s := HexEncode(bytes);
      HexRoundTrip(bytes[1..]);
      assert s[2..] == HexEncode(bytes[1..]);
      assert [bytes[0]] + bytes[1..] == bytes;
    }
  }

  /** A string that decodes is the upper-case encoding of its bytes, up to letter case. */
  lemma {:induction false} HexDecodeCanonical(s: string)
    requires HexDecode(s).Some?
    ensures HexEncode(HexDecode(s).value) == UpperHex(s)
    decreases |s|
  {
    if |s| > 0 {
      HexDecodeCanonical(s[2..]);
      var b := HexDecode(s).value;
      assert b[1..] == HexDecode(s[2..]).value;
      assert HexDigit(b[0] / 16) == UpperChar(s[0]);
      assert HexDigit(b[0] % 16) == UpperChar(s[1]);
      assert UpperHex(s) == [UpperChar(s[0]), UpperChar(s[1])] + UpperHex(s[2..]) by {
        assert s[1..][1..] == s[2..];
      }
    }
  }

  lemma {:induction false} UpperHexConcat(x: string, y: string)
    ensures UpperHex(x + y) == UpperHex(x) + UpperHex(y)
    decreases |x|
  {
    if |x| > 0 {
      assert (x + y)[0] == x[0];
      assert (x + y)[1..] == x[1..] + y;
      UpperHexConcat(x[1..], y);
      calc {
        UpperHex(x + y);
        [UpperChar(x[0])] + UpperHex(x[1..] + y);
        [UpperChar(x[0])] + (UpperHex(x[1..]) + UpperHex(y));
        ([UpperChar(x[0])] + UpperHex(x[1..])) + UpperHex(y);
        UpperHex(x) + UpperHex(y);
      }
    } else {
      assert x + y == y;
    }
  }

  lemma HexAvoidsColon(s: string)
    requires AllHex(s)
    ensures Avoids(s, {':'})
  {
  }

  /** A well-formed token splits at its colon into the address and port digits. */
  lemma SplitWellFormed(ep: string)
    requires WellFormedToken(ep)
    ensures Split(ep, ':') == [ep[..8], ep[9..]]
  {
    assert ep == ep[..8] + [':'] + ep[9..];
    SplitAtSeparator(ep[..8], ':', ep[9..], {':'});
    SplitAvoiding(ep[9..], {':'});
  }

  /** Round trip: parsing the kernel's rendering of an endpoint yields that endpoint. */
  lemma {:induction false} ParseEncodeRoundTrip(e: Endpoint)
    ensures ParseEndpoint(EncodeEndpoint(e)) == Ok(e)
  {
    var addr := [e.ip.d, e.ip.c, e.ip.b, e.ip.a];
    var port: seq<Byte> := [e.port / 256, e.port % 256];
    var ep := EncodeEndpoint(e);
    assert ep[..8] == HexEncode(addr) && ep[9..] == HexEncode(port);
    SplitWellFormed(ep);
    HexRoundTrip(addr);
    HexRoundTrip(port);
  }

  /** A token parses exactly when it is well formed. */
  lemma {:induction false} ParseOkIff(ep: string)
    ensures ParseEndpoint(ep).Ok? <==> WellFormedToken(ep)
  {
    if WellFormedToken(ep) {
      SplitWellFormed(ep);
    }
    if ParseEndpoint(ep).Ok? {
      var parts := Split(ep, ':');
      JoinSplit(ep, ':');
      assert ep == parts[0] + [':'] + parts[1] by {
        assert parts[1..] == [parts[1]];
      }
      assert |parts[0]| == 8;
      assert ep[..8] == parts[0] && ep[9..] == parts[1];
    }
  }

  /**
   The reverse round trip: a token that parses is the kernel's rendering of
   the result, up to the case of its hex letters.
   */
  lemma {:induction false} ParseEndpointCanonical(ep: string)
    requires ParseEndpoint(ep).Ok?
    ensures EncodeEndpoint(ParseEndpoint(ep).value) == UpperHex(ep)
  {
    ParseOkIff(ep);
    SplitWellFormed(ep);
    var e := ParseEndpoint(ep).value;
    var a := HexDecode(ep[..8]).value;
    var p := HexDecode(ep[9..]).value;
    assert [e.ip.d, e.ip.c, e.ip.b, e.ip.a] == a;
    assert [e.port / 256, e.port % 256] == p;
    HexDecodeCanonical(ep[..8]);
    HexDecodeCanonical(ep[9..]);
    assert ep == ep[..8] + (":" + ep[9..]);
    UpperHexConcat(ep[..8], ":" + ep[9..]);
    UpperHexConcat(":", ep[9..]);
    assert UpperHex(":") == ":";
    assert EncodeEndpoint(e) == HexEncode(a) + ":" + HexEncode(p);
  }

  /**
   The unchecked index: a 13-character token whose one colon sits at an even
   position other than 8, with hex digits on both sides, panics; at an odd
   position the hex decoder rejects it first.
   */
  lemma {:induction false} MisplacedColon(ep: string, i: nat)
    requires |ep| == TokenLength && i < |ep| && i != 8 && ep[i] == ':'
    requires AllHex(ep[..i]) && AllHex(ep[i + 1..])
    ensures i % 2 == 0 ==> ParseEndpoint(ep) == IndexPanic
    ensures i % 2 == 1 ==> ParseEndpoint(ep) == Err(BadHex)
  {
    assert ep == ep[..i] + [':'] + ep[i + 1..];
    SplitAtSeparator(ep[..i], ':', ep[i + 1..], {':'});
    SplitAvoiding(ep[i + 1..], {':'});
  }

  /** A non-hex character in the address part is rejected. */
  lemma {:induction false} NonHexAddressRejected(ep: string, j: nat)
    requires |ep| == TokenLength && CountIn(ep, {':'}) == 1
    requires j < |Split(ep, ':')[0]| && !IsHexDigit(Split(ep, ':')[0][j])
    ensures ParseEndpoint(ep) == Err(BadHex)
  {
  }

  /**
   A non-hex character in the port part is rejected once the address part is
   eight hex digits (as a bad split when that character is a second colon).
   */
  lemma {:induction false} NonHexPortRejected(ep: string, j: nat)
    requires |ep| == TokenLength && ep[8] == ':' && AllHex(ep[..8])
    requires 9 <= j < |ep| && !IsHexDigit(ep[j])
    ensures ParseEndpoint(ep).Err?
  {
    assert ep == ep[..8] + [':'] + ep[9..];
    assert ep[9..][j - 9] == ep[j];
    HexAvoidsColon(ep[..8]);
    SplitAtSeparator(ep[..8], ':', ep[9..], {':'});
    if ':' in ep[9..] {
      SplitMany(ep[9..], ':');
    } else {
      SplitAvoiding(ep[9..], {':'});
    }
  }

  /** The three upper address bytes the test vectors share: 10.192.1.x. */
  lemma SharedAddressBytes()
    ensures HexEncode([1, 192, 10]) == "01C00A"
  {
    assert HexEncode([10]) == "0A";
    assert HexEncode([192, 10]) == "C00A";
  }

  lemma Vector1Token()
    ensures EncodeEndpoint(Endpoint(IPv4(10, 192, 1, 18), 6443)) == "1201C00A:192B"
  {
    var e := Endpoint(IPv4(10, 192, 1, 18), 6443);
    assert e.port / 256 == 25 && e.port % 256 == 43;
    SharedAddressBytes();
    assert HexEncode([18, 1, 192, 10]) == "1201C00A";
    assert HexEncode([25, 43]) == "192B" by {
      assert HexEncode([43]) == "2B";
    }
  }

  lemma Vector2Token()
    ensures EncodeEndpoint(Endpoint(IPv4(10, 192, 1, 24), 60024)) == "1801C00A:EA78"
  {
    var e := Endpoint(IPv4(10, 192, 1, 24), 60024);
    assert e.port / 256 == 234 && e.port % 256 == 120;
    SharedAddressBytes();
    assert HexEncode([24, 1, 192, 10]) == "1801C00A";
    assert HexEncode([234, 120]) == "EA78" by {
      assert HexEncode([120]) == "78";
    }
  }

  lemma Vector3Token()
    ensures EncodeEndpoint(Endpoint(IPv4(10, 192, 1, 21), 55468)) == "1501C00A:D8AC"
  {
    var e := Endpoint(IPv4(10, 192, 1, 21), 55468);
    assert e.port / 256 == 216 && e.port % 256 == 172;
    SharedAddressBytes();
    assert HexEncode([21, 1, 192, 10]) == "1501C00A";
    assert HexEncode([216, 172]) == "D8AC" by {
      assert HexEncode([172]) == "AC";
    }
  }

  /** The vectors of the parser's unit tests: accepted tokens. */
  lemma TestVector1()
    ensures ParseEndpoint("1201C00A:192B") == Ok(Endpoint(IPv4(10, 192, 1, 18), 6443))
  {
    Vector1Token();
    ParseEncodeRoundTrip(Endpoint(IPv4(10, 192, 1, 18), 6443));
  }

  lemma TestVector2()
    ensures ParseEndpoint("1801C00A:EA78") == Ok(Endpoint(IPv4(10, 192, 1, 24), 60024))
  {
    Vector2Token();
    ParseEncodeRoundTrip(Endpoint(IPv4(10, 192, 1, 24), 60024));
  }

  lemma TestVector3()
    ensures ParseEndpoint("1501C00A:D8AC") == Ok(Endpoint(IPv4(10, 192, 1, 21), 55468))
  {
    Vector3Token();
    ParseEncodeRoundTrip(Endpoint(IPv4(10, 192, 1, 21), 55468));
  }

  /** The vectors of the parser's unit tests: rejected tokens. */
  lemma RejectedVectors()
    ensures ParseEndpoint("x12:D8AC") == Err(BadLength(8))
    ensures ParseEndpoint("") == Err(BadLength(0))
    ensures ParseEndpoint("AAAA:AAAA:AAAA") == Err(BadLength(14))
  {
  }
}
