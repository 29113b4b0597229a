/** An address library that obeys the laws the Forwarded header proofs ask for: dotted-quad IPv4, and
    IPv6 as eight groups of four hexadecimal digits. */
module IpLiterals {
  import opened Common
  import opened Text
  import opened Forwarding
  import opened ForwardedPrinter

  // ---------------------------------------------------------------- places

  /** IPv4 addresses are written in places of 8 bits, IPv6 addresses in places of 16. */
  datatype Radix = Octets | Groups

  function Scale(n: nat, r: Radix): nat {
    if r.Octets? then n * 256 else n * 65536
  }

  function Quotient(n: nat, r: Radix): nat {
    if r.Octets? then n / 256 else n / 65536
  }

  function Remainder(n: nat, r: Radix): nat {
    if r.Octets? then n % 256 else n % 65536
  }

  /** How many numbers have k places. */
  function Span(k: nat, r: Radix): nat {
    if k == 0 then 1 else Scale(Span(k - 1, r), r)
  }

  /** The last k places of n, the highest first. */
  function Places(n: nat, k: nat, r: Radix): (places: seq<nat>)
    ensures |places| == k && forall i :: 0 <= i < k ==> places[i] < Scale(1, r)
  {
    if k == 0 then [] else Places(Quotient(n, r), k - 1, r) + [Remainder(n, r)]
  }

  function Number(places: seq<nat>, r: Radix): nat {
    if places == [] then 0 else Scale(Number(places[..|places| - 1], r), r) + places[|places| - 1]
  }

  lemma {:induction false} NumberOfPlaces(n: nat, k: nat, r: Radix)
    requires n < Span(k, r)
    ensures Number(Places(n, k, r), r) == n
  {
    if k == 0 {
    } else {
      var places := Places(n, k, r);
      assert places[..|places| - 1] == Places(Quotient(n, r), k - 1, r);
      NumberOfPlaces(Quotient(n, r), k - 1, r);
    }
  }

  // ---------------------------------------------------------------- one place

  function DigitValue(c: char): Option<nat> {
    if '0' <= c <= '9' then Some((c - '0') as nat) else None
  }

  /** A number below 256 in decimal, without leading zeros. */
  function Octet(n: nat): string {
    if n < 10 then [HexDigit(n)]
    else if n < 100 then [HexDigit(n / 10), HexDigit(n % 10)]
    else [HexDigit(n / 100 % 10), HexDigit(n / 10 % 10), HexDigit(n % 10)]
  }

  function ReadOctet(s: string): Option<nat> {
    match |s|
    case 1 => DigitValue(s[0])
    case 2 =>
      (match (DigitValue(s[0]), DigitValue(s[1]))
       case (Some(a), Some(b)) => if a == 0 then None else Some(a * 10 + b)
       case _ => None)
    case 3 =>
      (match (DigitValue(s[0]), DigitValue(s[1]), DigitValue(s[2]))
       case (Some(a), Some(b), Some(c)) => if a == 0 || a * 100 + b * 10 + c > 255 then None else Some(a * 100 + b * 10 + c)
       case _ => None)
    case _ => None
  }

  lemma DecimalDigit(n: nat)
    requires n < 10
    ensures DigitValue(HexDigit(n)) == Some(n)
  {
  }

  lemma OctetRoundTrip(n: nat)
    requires n < 256
    ensures ReadOctet(Octet(n)) == Some(n)
    ensures Octet(n) != "" && forall i :: 0 <= i < |Octet(n)| ==> '0' <= Octet(n)[i] <= '9'
  {
    DecimalDigit(n % 10);
    DecimalDigit(n / 10 % 10);
    DecimalDigit(n / 100 % 10);
    if 10 <= n < 100 {
      DecimalDigit(n / 10);
    }
  }

  lemma OctetsAreDigits(s: string, c: char)
    requires ReadOctet(s).Some? && c in s
    ensures '0' <= c <= '9'
  {
  }

  /** A number below 65536 as four hexadecimal digits. */
  function Group(n: nat): string {
    [HexDigit(n / 16 / 16 / 16 % 16), HexDigit(n / 16 / 16 % 16), HexDigit(n / 16 % 16), HexDigit(n % 16)]
  }

  function ReadGroup(s: string): Option<nat> {
    if |s| != 4 then None
    else
      match (HexValue(s[0]), HexValue(s[1]), HexValue(s[2]), HexValue(s[3]))
      case (Some(a), Some(b), Some(c), Some(d)) => Some(a * 4096 + b * 256 + c * 16 + d)
      case _ => None
  }

  lemma HexChars(n: nat)
    requires n < 16
    ensures HexValue(HexDigit(n)) == Some(n)
    ensures '0' <= HexDigit(n) <= '9' || 'a' <= HexDigit(n) <= 'f'
  {
  }

  lemma GroupRoundTrip(n: nat)
    requires n < 65536
    ensures ReadGroup(Group(n)) == Some(n)
    ensures forall i :: 0 <= i < 4 ==> '0' <= Group(n)[i] <= '9' || 'a' <= Group(n)[i] <= 'f'
  {
    var q := n / 16;
    var r := q / 16;
    var a, b, c, d := r / 16, r % 16, q % 16, n % 16;
    assert a < 16 && n == a * 4096 + b * 256 + c * 16 + d;
    HexChars(a);
    HexChars(b);
    HexChars(c);
    HexChars(d);
    assert Group(n) == [HexDigit(a), HexDigit(b), HexDigit(c), HexDigit(d)];
  }

  lemma GroupsAreHex(s: string, c: char)
    requires ReadGroup(s).Some? && c in s
    ensures '0' <= c <= '9' || 'a' <= c <= 'f'
  {
  }

  // ---------------------------------------------------------------- addresses

  function Show(a: Address): string {
    match a
    case V4(n) => Join(Map(Places(n, 4, Octets), Octet), '.')
    case V6(n) => Join(Map(Places(n, 8, Groups), Group), ':')
  }

  function ReadQuad(s: string): Option<Address> {
    var octets := AllSome(Map(Split(s, '.'), ReadOctet));
    if octets.None? || |octets.value| != 4 || Number(octets.value, Octets) >= 0x1_0000_0000 then None
    else Some(V4(Number(octets.value, Octets)))
  }

  function ReadGroups(s: string): Option<Address> {
    var groups := AllSome(Map(Split(s, ':'), ReadGroup));
    if groups.None? || |groups.value| != 8 || Number(groups.value, Groups) >= 0x1_0000_0000_0000_0000_0000_0000_0000_0000
    then None
    else Some(V6(Number(groups.value, Groups)))
  }

  function Parse(s: string): Option<Address> {
    if ReadQuad(s).Some? then ReadQuad(s) else ReadGroups(s)
  }

  const LIBRARY := IpLibrary(Parse, Show)

  /** Reading back a printed list of places. */
  lemma ReadShown(places: seq<nat>, write: nat -> string, read: string -> Option<nat>)
    requires forall i :: 0 <= i < |places| ==> read(write(places[i])) == Some(places[i])
    ensures AllSome(Map(Map(places, write), read)) == Some(places)
  {
    var items := Map(Map(places, write), read);
    AllSomeIs(items);
    assert AllSome(items).value == places;
  }

  lemma QuadRoundTrip(n: V4Value)
    ensures Parse(Show(V4(n))) == Some(V4(n))
  {
    var places := Places(n, 4, Octets);
    var parts := Map(places, Octet);
    forall i | 0 <= i < 4 ensures ReadOctet(Octet(places[i])) == Some(places[i]) && '.' !in parts[i] {
      OctetRoundTrip(places[i]);
    }
    SplitJoin(parts, '.');
    ReadShown(places, Octet, ReadOctet);
    Spans();
    NumberOfPlaces(n, 4, Octets);
  }

  lemma Spans()
    ensures Span(4, Octets) == 0x1_0000_0000
    ensures Span(8, Groups) == 0x1_0000_0000_0000_0000_0000_0000_0000_0000
  {
  }

  lemma GroupsRoundTrip(n: V6Value)
    ensures ReadGroups(Show(V6(n))) == Some(V6(n))
  {
    var places := Places(n, 8, Groups);
    var parts := Map(places, Group);
    forall i | 0 <= i < 8 ensures ReadGroup(Group(places[i])) == Some(places[i]) && ':' !in parts[i] {
      GroupRoundTrip(places[i]);
    }
    SplitJoin(parts, ':');
    ReadShown(places, Group, ReadGroup);
    Spans();
    NumberOfPlaces(n, 8, Groups);
  }

  /** What is read holds nothing but separators and digits. */
  lemma ReadChars(s: string, c: char)
    requires c in s
    ensures ReadQuad(s).Some? ==> c == '.' || '0' <= c <= '9'
    ensures ReadGroups(s).Some? ==> c == ':' || '0' <= c <= '9' || 'a' <= c <= 'f'
  {
    if c != '.' {
      var i := PieceHolds(s, '.', c);
      var items := Map(Split(s, '.'), ReadOctet);
      AllSomeIs(items);
      if items[i].Some? {
        OctetsAreDigits(Split(s, '.')[i], c);
      }
    }
    if c != ':' {
      var i := PieceHolds(s, ':', c);
      var items := Map(Split(s, ':'), ReadGroup);
      AllSomeIs(items);
      if items[i].Some? {
        GroupsAreHex(Split(s, ':')[i], c);
      }
    }
  }

  /** No dotted quad is read where a colon occurs, and no groups where a dot does. */
  lemma MixedIsNoAddress(s: string)
    ensures ':' in s ==> ReadQuad(s).None?
    ensures '.' in s ==> ReadGroups(s).None?
  {
    if ':' in s {
      ReadChars(s, ':');
    }
    if '.' in s {
      ReadChars(s, '.');
    }
  }

  lemma ShownChars(a: Address)
    ensures AddressText(Show(a))
    ensures a.V4? ==> '.' in Show(a)
    ensures a.V6? ==> ':' in Show(a)
  {
    var d := if a.V4? then '.' else ':';
    var places := if a.V4? then Places(a.v4, 4, Octets) else Places(a.v6, 8, Groups);
    var parts := if a.V4? then Map(places, Octet) else Map(places, Group);
    forall i | 0 <= i < |places| ensures forall j :: 0 <= j < |parts[i]| ==> AddressChar(parts[i][j]) {
      if a.V4? {
        OctetRoundTrip(places[i]);
      } else {
        GroupRoundTrip(places[i]);
      }
    }
    forall k | 0 <= k < |Show(a)| ensures AddressChar(Show(a)[k]) {
      if Show(a)[k] != d {
        JoinHolds(parts, d, Show(a)[k]);
      }
    }
    assert Show(a) == parts[0] + [d] + Join(parts[1..], d);
    assert Show(a)[|parts[0]|] == d;
  }

  /** The laws can be met. */
  lemma LibraryIsLawful()
    ensures Lawful(LIBRARY)
  {
    forall a: Address ensures LIBRARY.parse(LIBRARY.show(a)) == Some(a) && AddressText(LIBRARY.show(a)) {
      ShownChars(a);
      match a {
        case V4(n) => QuadRoundTrip(n);
        case V6(n) =>
          GroupsRoundTrip(n);
          MixedIsNoAddress(Show(a));
      }
    }
    forall a: Address, port: string | a.V4? && Digits(port)
      ensures LIBRARY.parse(LIBRARY.show(a) + ":" + port) == None
    {
      ShownChars(a);
      var s := Show(a) + ":" + port;
      assert s[|Show(a)|] == ':';
      var k :| 0 <= k < |Show(a)| && Show(a)[k] == '.';
      assert s[k] == '.';
      MixedIsNoAddress(s);
    }
    forall s: string | LIBRARY.parse(s).Some? ensures Literal(s) {
      forall i | 0 <= i < |s| ensures LiteralChar(s[i]) {
        ReadChars(s, s[i]);
      }
    }
  }
}
