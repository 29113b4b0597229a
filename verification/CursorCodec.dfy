/** The cursor text of backend/app/audit/service.py: base64url (section 5 of RFC 4648) of a byte
    string, with the padding stripped on the way out and recomputed on the way in. */
module CursorCodec {
  import opened Common

  /** The alphabet of section 5 of RFC 4648. */
  function Digit(n: nat): char
    requires n < 64
  {
    if n < 26 then 'A' + n as char
    else if n < 52 then 'a' + (n - 26) as char
    else if n < 62 then '0' + (n - 52) as char
    else if n == 62 then '-'
    else '_'
  }

  function DigitValue(c: char): (r: Option<nat>)
    ensures r.Some? ==> r.value < 64
  {
    if 'A' <= c <= 'Z' then Some((c - 'A') as nat)
    else if 'a' <= c <= 'z' then Some((c - 'a') as nat + 26)
    else if '0' <= c <= '9' then Some((c - '0') as nat + 52)
    else if c == '-' then Some(62)
    else if c == '_' then Some(63)
    else None
  }

  /** base64.urlsafe_b64encode, padding included. */
  function Encode(data: seq<Byte>): string {
    if data == [] then ""
    else if |data| == 1 then
      [Digit(data[0] / 4), Digit(data[0] % 4 * 16), '=', '=']
    else if |data| == 2 then
      [Digit(data[0] / 4), Digit(data[0] % 4 * 16 + data[1] / 16), Digit(data[1] % 16 * 4), '=']
    else
      [Digit(data[0] / 4), Digit(data[0] % 4 * 16 + data[1] / 16),
       Digit(data[1] % 16 * 4 + data[2] / 64), Digit(data[2] % 64)] + Encode(data[3..])
  }

  /** b64decode(validate=True) of padded text; None is its error. Like the library it ignores the
      bits a final group leaves over. */
  function Decode(s: string): Option<seq<Byte>> {
    if s == "" then Some([])
    else if |s| < 4 then None
    else
      match (DigitValue(s[0]), DigitValue(s[1]))
      case (Some(a), Some(b)) =>
        if s[2..] == "==" then Some([FirstByte(a, b)])
        else
          (match DigitValue(s[2])
           case None => None
           case Some(c) =>
             if s[3..] == "=" then Some([FirstByte(a, b), SecondByte(b, c)])
             else
               match (DigitValue(s[3]), Decode(s[4..]))
               case (Some(d), Some(rest)) => Some([FirstByte(a, b), SecondByte(b, c), ThirdByte(c, d)] + rest)
               case _ => None)
      case _ => None
  }

  function FirstByte(a: nat, b: nat): Byte
    requires a < 64 && b < 64
  {
    a * 4 + b / 16
  }

  function SecondByte(b: nat, c: nat): Byte
    requires b < 64 && c < 64
  {
    b % 16 * 16 + c / 4
  }

  function ThirdByte(c: nat, d: nat): Byte
    requires c < 64 && d < 64
  {
    c % 4 * 64 + d
  }

  lemma DigitRoundTrip(n: nat)
    requires n < 64
    ensures DigitValue(Digit(n)) == Some(n) && Digit(n) != '='
  {
  }

  lemma GroupRoundTrip(x: Byte, y: Byte, z: Byte)
    ensures FirstByte(x / 4, x % 4 * 16 + y / 16) == x
    ensures SecondByte(x % 4 * 16 + y / 16, y % 16 * 4 + z / 64) == y
    ensures ThirdByte(y % 16 * 4 + z / 64, z % 64) == z
  {
  }

  /** Four digits decode to their three bytes, then the rest. */
  lemma DecodeGroup(a: nat, b: nat, c: nat, d: nat, rest: string)
    requires a < 64 && b < 64 && c < 64 && d < 64
    ensures Decode([Digit(a), Digit(b), Digit(c), Digit(d)] + rest)
            == if Decode(rest).None? then None
               else Some([FirstByte(a, b), SecondByte(b, c), ThirdByte(c, d)] + Decode(rest).value)
  {
    DigitRoundTrip(a);
    DigitRoundTrip(b);
    DigitRoundTrip(c);
    DigitRoundTrip(d);
    var s := [Digit(a), Digit(b), Digit(c), Digit(d)] + rest;
    assert s[4..] == rest && s[2..][0] == s[2] && s[3..][0] == s[3];
  }

  lemma DecodeTail(a: nat, b: nat, c: nat)
    requires a < 64 && b < 64 && c < 64
    ensures Decode([Digit(a), Digit(b), '=', '=']) == Some([FirstByte(a, b)])
    ensures Decode([Digit(a), Digit(b), Digit(c), '=']) == Some([FirstByte(a, b), SecondByte(b, c)])
  {
    DigitRoundTrip(a);
    DigitRoundTrip(b);
    DigitRoundTrip(c);
    assert [Digit(a), Digit(b), '=', '='][2..] == "==";
    assert [Digit(a), Digit(b), Digit(c), '='][2..][0] == Digit(c);
    assert [Digit(a), Digit(b), Digit(c), '='][3..] == "=";
  }

  /** Vectors of section 10 of RFC 4648, and one for the two characters of the URL-safe alphabet. */
  lemma StandardVectors()
    ensures Encode([102]) == "Zg==" && Encode([102, 111]) == "Zm8=" && Encode([102, 111, 111]) == "Zm9v"
    ensures Encode([251, 255, 190]) == "-_--"
  {
  }

  lemma OneIsDecoded(x: Byte)
    ensures Decode(Encode([x])) == Some([x])
  {
    GroupRoundTrip(x, 0, 0);
    DecodeTail(x / 4, x % 4 * 16, 0);
  }

  lemma TwoAreDecoded(x: Byte, y: Byte)
    ensures Decode(Encode([x, y])) == Some([x, y])
  {
    GroupRoundTrip(x, y, 0);
    DecodeTail(x / 4, x % 4 * 16 + y / 16, y % 16 * 4);
  }

  lemma {:induction false} DecodeInverts(data: seq<Byte>)
    ensures Decode(Encode(data)) == Some(data)
  {
    if data == [] {
    } else if |data| == 1 {
      OneIsDecoded(data[0]);
      assert data == [data[0]];
    } else if |data| == 2 {
      TwoAreDecoded(data[0], data[1]);
      assert data == [data[0], data[1]];
    } else {
      var x, y, z := data[0], data[1], data[2];
      GroupRoundTrip(x, y, z);
      DecodeGroup(x / 4, x % 4 * 16 + y / 16, y % 16 * 4 + z / 64, z % 64, Encode(data[3..]));
      DecodeInverts(data[3..]);
      assert data == [x, y, z] + data[3..];
    }
  }

  /** s.rstrip("=") */
  function StripPadding(s: string): string {
    if s != "" && s[|s| - 1] == '=' then StripPadding(s[..|s| - 1]) else s
  }

  /** "=" * (-len(s) % 4), with Python's floored remainder. */
  function Padding(s: string): string {
    seq((4 - |s| % 4) % 4, _ => '=')
  }

  /** The text given to the client. */
  function EncodeCursor(payload: seq<Byte>): string {
    StripPadding(Encode(payload))
  }

  /** What the service reads back. */
  function DecodeCursor(text: string): Option<seq<Byte>> {
    Decode(text + Padding(text))
  }

  /** Encoded text is whole groups of four, and stripping then padding restores it. */
  ghost predicate WellPadded(s: string) {
    |s| % 4 == 0 && StripPadding(s) + Padding(StripPadding(s)) == s
  }

  lemma ShapeOfOne(a: nat, b: nat)
    requires a < 64 && b < 64
    ensures var s := [Digit(a), Digit(b), '=', '=']; StripPadding(s) == s[..2] && WellPadded(s)
  {
    var s := [Digit(a), Digit(b), '=', '='];
    DigitRoundTrip(b);
    assert s[..3][..2] == s[..2];
    assert StripPadding(s) == StripPadding(s[..3]) == StripPadding(s[..2]) == s[..2];
    assert Padding(s[..2]) == ['=', '='];
  }

  lemma ShapeOfTwo(a: nat, b: nat, c: nat)
    requires a < 64 && b < 64 && c < 64
    ensures var s := [Digit(a), Digit(b), Digit(c), '=']; StripPadding(s) == s[..3] && WellPadded(s)
  {
    var s := [Digit(a), Digit(b), Digit(c), '='];
    DigitRoundTrip(c);
    assert StripPadding(s) == StripPadding(s[..3]) == s[..3];
    assert Padding(s[..3]) == ['='];
  }

  lemma ShapeOfGroup(head: string, tail: string)
    requires |head| == 4 && head[3] != '=' && WellPadded(tail)
    ensures WellPadded(head + tail)
  {
    StripThrough(head, tail);
    var stripped := StripPadding(tail);
    assert Padding(head + stripped) == Padding(stripped);
    assert (head + stripped) + Padding(stripped) == head + (stripped + Padding(stripped));
  }

  lemma {:induction false} EncodingShape(data: seq<Byte>)
    ensures WellPadded(Encode(data))
  {
    if data == [] {
    } else if |data| == 1 {
      ShapeOfOne(data[0] / 4, data[0] % 4 * 16);
    } else if |data| == 2 {
      ShapeOfTwo(data[0] / 4, data[0] % 4 * 16 + data[1] / 16, data[1] % 16 * 4);
    } else {
      DigitRoundTrip(data[2] % 64);
      EncodingShape(data[3..]);
      ShapeOfGroup([Digit(data[0] / 4), Digit(data[0] % 4 * 16 + data[1] / 16),
                    Digit(data[1] % 16 * 4 + data[2] / 64), Digit(data[2] % 64)], Encode(data[3..]));
    }
  }

  /** Stripping stops at the last digit of a front that does not end in padding. */
  lemma {:induction false} StripThrough(head: string, tail: string)
    requires |head| == 4 && head[3] != '='
    ensures StripPadding(head + tail) == head + StripPadding(tail)
    decreases |tail|
  {
    if tail == "" {
      assert head + tail == head;
    } else if tail[|tail| - 1] == '=' {
      assert (head + tail)[..|head + tail| - 1] == head + tail[..|tail| - 1];
      StripThrough(head, tail[..|tail| - 1]);
    }
  }

  /** Every payload survives the trip through the stripped cursor text. */
  lemma CursorRoundTrip(payload: seq<Byte>)
    ensures DecodeCursor(EncodeCursor(payload)) == Some(payload)
    ensures '=' !in EncodeCursor(payload)
  {
    EncodingShape(payload);
    DecodeInverts(payload);
    OnlyPaddingIsStripped(payload);
  }

  lemma {:induction false} OnlyPaddingIsStripped(data: seq<Byte>)
    ensures '=' !in StripPadding(Encode(data))
  {
    if data == [] {
    } else if |data| == 1 {
      DigitRoundTrip(data[0] / 4);
      DigitRoundTrip(data[0] % 4 * 16);
      ShapeOfOne(data[0] / 4, data[0] % 4 * 16);
    } else if |data| == 2 {
      DigitRoundTrip(data[0] / 4);
      DigitRoundTrip(data[0] % 4 * 16 + data[1] / 16);
      DigitRoundTrip(data[1] % 16 * 4);
      ShapeOfTwo(data[0] / 4, data[0] % 4 * 16 + data[1] / 16, data[1] % 16 * 4);
    } else {
      var head := [Digit(data[0] / 4), Digit(data[0] % 4 * 16 + data[1] / 16),
                   Digit(data[1] % 16 * 4 + data[2] / 64), Digit(data[2] % 64)];
      DigitRoundTrip(data[0] / 4);
      DigitRoundTrip(data[0] % 4 * 16 + data[1] / 16);
      DigitRoundTrip(data[1] % 16 * 4 + data[2] / 64);
      DigitRoundTrip(data[2] % 64);
      StripThrough(head, Encode(data[3..]));
      OnlyPaddingIsStripped(data[3..]);
    }
  }
}
