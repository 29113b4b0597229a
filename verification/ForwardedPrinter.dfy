/** A printer for the Forwarded header in the grammar of sections 4 and 6 of RFC 7239, and exactly what
    the chain reader of backend/app/security/auth.py makes of what it prints. */
module ForwardedPrinter {
  import opened Common
  import opened Text
  import opened Forwarding

  /** Section 6: an IPv4 address, a bracketed IPv6 address, "unknown" or an obfuscated identifier. */
  datatype NodeName = Ip(address: Address) | Unknown(text: string) | Obfuscated(text: string)

  /** Section 6: a node with an optional port, itself a number or obfuscated. */
  datatype Node = Node(name: NodeName, port: Option<string>)

  /** A character inside a quoted string, as it is or as a quoted pair. */
  datatype QuotedChar = QuotedChar(c: char, escaped: bool)

  datatype Value = NodeValue(node: Node, quoted: bool) | Token(text: string) | Quoted(chars: seq<QuotedChar>)

  /** Section 4: name=value. */
  datatype Pair = Pair(name: string, value: Value)

  /** Section 4: pairs joined by semicolons, each of which may be absent, with optional white space around. */
  datatype Element = Element(before: string, pairs: seq<Option<Pair>>, after: string)

  // ---------------------------------------------------------------- printing

  function PrintName(name: NodeName, ip: IpLibrary): string {
    match name
    case Ip(V4(n)) => ip.show(V4(n))
    case Ip(V6(n)) => "[" + ip.show(V6(n)) + "]"
    case Unknown(text) => text
    case Obfuscated(text) => text
  }

  function PrintNode(node: Node, ip: IpLibrary): string {
    PrintName(node.name, ip) + (if node.port.Some? then ":" + node.port.value else "")
  }

  function PrintChars(chars: seq<QuotedChar>): string {
    if chars == [] then ""
    else (if chars[0].escaped then ['\\', chars[0].c] else [chars[0].c]) + PrintChars(chars[1..])
  }

  /** The text between the quotes, or without them. */
  function Body(value: Value, ip: IpLibrary): string {
    match value
    case NodeValue(node, _) => PrintNode(node, ip)
    case Token(text) => text
    case Quoted(chars) => PrintChars(chars)
  }

  function PrintValue(value: Value, ip: IpLibrary): string {
    if value.Quoted? || (value.NodeValue? && value.quoted) then "\"" + Body(value, ip) + "\"" else Body(value, ip)
  }

  function PrintPair(pair: Pair, ip: IpLibrary): string {
    pair.name + "=" + PrintValue(pair.value, ip)
  }

  function PrintSlot(slot: Option<Pair>, ip: IpLibrary): string {
    if slot.None? then "" else PrintPair(slot.value, ip)
  }

  function PrintSlots(pairs: seq<Option<Pair>>, ip: IpLibrary): seq<string> {
    Map(pairs, slot => PrintSlot(slot, ip))
  }

  function PrintBody(element: Element, ip: IpLibrary): string {
    Join(PrintSlots(element.pairs, ip), ';')
  }

  function PrintElement(element: Element, ip: IpLibrary): string {
    element.before + PrintBody(element, ip) + element.after
  }

  /** The whole header: the elements joined by commas. */
  function Print(elements: seq<Element>, ip: IpLibrary): string {
    Join(Map(elements, element => PrintElement(element, ip)), ',')
  }

  // ---------------------------------------------------------------- what the grammar admits

  /** A character of a token in HTTP. */
  predicate TokenChar(c: char) {
    || '0' <= c <= '9' || 'a' <= c <= 'z' || 'A' <= c <= 'Z' || c == '!' || c == '#' || c == '$' || c == '%'
    || c == '&' || c == '\'' || c == '*' || c == '+' || c == '-' || c == '.' || c == '^' || c == '_' || c == '`'
    || c == '|' || c == '~'
  }

  predicate IsToken(s: string) {
    s != "" && forall i :: 0 <= i < |s| ==> TokenChar(s[i])
  }

  /** Any character but comma and semicolon; a quote or a backslash only as a quoted pair. */
  predicate CharOk(q: QuotedChar) {
    q.c != ',' && q.c != ';' && (q.escaped || (q.c != '"' && q.c != '\\'))
  }

  const UNKNOWN := "unknown"

  /** Section 6: an underscore, then letters, digits, dots, underscores and hyphens. */
  predicate ObfuscatedChar(c: char) {
    '0' <= c <= '9' || 'a' <= c <= 'z' || 'A' <= c <= 'Z' || c == '.' || c == '_' || c == '-'
  }

  predicate IsObfuscated(s: string) {
    |s| > 1 && s[0] == '_' && forall i :: 0 <= i < |s| ==> ObfuscatedChar(s[i])
  }

  predicate NodeOk(node: Node) {
    && (match node.name
        case Ip(_) => true
        case Unknown(text) => Lower(text) == UNKNOWN
        case Obfuscated(text) => IsObfuscated(text))
    && (node.port.None? || Digits(node.port.value) || IsObfuscated(node.port.value))
  }

  predicate ValueOk(value: Value) {
    match value
    case NodeValue(node, _) => NodeOk(node)
    case Token(text) => IsToken(text)
    case Quoted(chars) => forall i :: 0 <= i < |chars| ==> CharOk(chars[i])
  }

  predicate PairOk(pair: Pair) {
    IsToken(pair.name) && ValueOk(pair.value)
  }

  predicate SlotOk(slot: Option<Pair>) {
    slot.Some? ==> PairOk(slot.value)
  }

  /** The values by lower-case name. */
  function Values(pairs: seq<Option<Pair>>): map<string, Value> {
    if pairs == [] then map[]
    else
      var front, last := Values(pairs[..|pairs| - 1]), pairs[|pairs| - 1];
      if last.None? then front else front[Lower(last.value.name) := last.value.value]
  }

  /** Section 4: no name twice. */
  predicate NoNameTwice(pairs: seq<Option<Pair>>) {
    pairs == []
    || (&& NoNameTwice(pairs[..|pairs| - 1])
        && (pairs[|pairs| - 1].Some? ==> Lower(pairs[|pairs| - 1].value.name) !in Values(pairs[..|pairs| - 1])))
  }

  predicate Spaces(s: string) {
    forall i :: 0 <= i < |s| ==> s[i] == ' ' || s[i] == '\t'
  }

  /** `for` holds a node, as it is or with quoted pairs; the percent sign is in no node. */
  predicate ForOk(value: Value) {
    value.NodeValue? || (Escaped(value) && forall i :: 0 <= i < |value.chars| ==> value.chars[i].c != '%')
  }

  predicate ElementOk(element: Element) {
    && Spaces(element.before) && Spaces(element.after) && element.pairs != []
    && (forall i :: 0 <= i < |element.pairs| ==> SlotOk(element.pairs[i]))
    && NoNameTwice(element.pairs)
    && ("for" in Values(element.pairs) ==> ForOk(Values(element.pairs)["for"]))
  }

  // ---------------------------------------------------------------- what the reader makes of it

  predicate AllPresent(pairs: seq<Option<Pair>>) {
    forall i :: 0 <= i < |pairs| ==> pairs[i].Some?
  }

  /** The reader takes an address without a quoted pair, and with no port or a numeric one. */
  predicate ForReadable(value: Value) {
    value.NodeValue? && value.node.name.Ip? && (value.node.port.None? || Digits(value.node.port.value))
  }

  /** Every pair is there and one of them is a `for` that can be read. */
  predicate ElementReadable(element: Element) {
    AllPresent(element.pairs) && "for" in Values(element.pairs) && ForReadable(Values(element.pairs)["for"])
  }

  predicate Escaped(value: Value) {
    value.Quoted? && exists i :: 0 <= i < |value.chars| && value.chars[i].escaped
  }

  function CharsOf(chars: seq<QuotedChar>): string {
    if chars == [] then "" else [chars[0].c] + CharsOf(chars[1..])
  }

  /** What a value stands for. */
  function Meaning(value: Value, ip: IpLibrary): string {
    match value
    case NodeValue(node, _) => PrintNode(node, ip)
    case Token(text) => text
    case Quoted(chars) => CharsOf(chars)
  }

  /** The reader takes no quoted pair, and of the rest http and https in any case. */
  predicate ProtoReadable(element: Element, ip: IpLibrary) {
    var values := Values(element.pairs);
    "proto" in values ==>
      && !Escaped(values["proto"])
      && (Lower(Meaning(values["proto"], ip)) == "http" || Lower(Meaning(values["proto"], ip)) == "https")
  }

  /** Again no quoted pair, and a text of 1 to 255 characters without those forbidden in a host. */
  predicate HostReadable(element: Element, ip: IpLibrary) {
    "host" in Values(element.pairs) ==> IsHost(Values(element.pairs)["host"], ip)
  }

  predicate IsHost(value: Value, ip: IpLibrary) {
    var text := Meaning(value, ip);
    && !Escaped(value) && 0 < |text| <= 255
    && forall i :: 0 <= i < |text| ==> text[i] !in {'/', '\\', '@', '#', '?', '\r', '\n'}
  }

  /** Nothing absent, an address in every element, within the limit, and a proto and host that can be read. */
  predicate Readable(elements: seq<Element>, limit: nat, ip: IpLibrary) {
    && |elements| <= limit
    && (forall i :: 0 <= i < |elements| ==> ElementReadable(elements[i]))
    && (elements != [] ==> ProtoReadable(elements[0], ip) && HostReadable(elements[0], ip))
  }

  function AddressOf(element: Element): Address
    requires ElementOk(element) && ElementReadable(element)
  {
    Values(element.pairs)["for"].node.name.address
  }

  function ProtoOf(element: Element, ip: IpLibrary): Option<string> {
    if "proto" in Values(element.pairs) then Some(Lower(Meaning(Values(element.pairs)["proto"], ip))) else None
  }

  function HostOf(element: Element, ip: IpLibrary): Option<string> {
    if "host" in Values(element.pairs) then Some(Meaning(Values(element.pairs)["host"], ip)) else None
  }

  predicate AddressChar(c: char) {
    '0' <= c <= '9' || 'a' <= c <= 'f' || c == ':' || c == '.'
  }

  predicate AddressText(s: string) {
    s != "" && forall i :: 0 <= i < |s| ==> AddressChar(s[i])
  }

  predicate LiteralChar(c: char) {
    AddressChar(c) || 'A' <= c <= 'F'
  }

  /** Nothing but these, or a scope after a percent sign. */
  predicate Literal(s: string) {
    '%' in s || forall i :: 0 <= i < |s| ==> LiteralChar(s[i])
  }

  /** What is used of the ipaddress library: it reads what it prints, prints digits, a to f, colons and
      dots, does not read an IPv4 address with a port, and outside of IPv6 scopes reads nothing but
      digits, a to f, A to F, colons and dots. */
  ghost predicate Lawful(ip: IpLibrary) {
    && (forall a: Address :: ip.parse(ip.show(a)) == Some(a))
    && (forall a: Address :: AddressText(ip.show(a)))
    && (forall a: Address, port: string | a.V4? && Digits(port) :: ip.parse(ip.show(a) + ":" + port) == None)
    && (forall s: string {:trigger Literal(s)} :: ip.parse(s).Some? ==> Literal(s))
  }

  // ---------------------------------------------------------------- stripping

  lemma {:induction false} StripAfter(s: string, after: string)
    requires Spaces(after) && (s == "" || Trim(s))
    ensures Strip(s + after) == s
    decreases |after|
  {
    var whole := s + after;
    if after == "" {
      assert whole == s;
    } else if s == "" {
      assert whole == after && whole[1..] == s + after[1..];
      StripAfter(s, after[1..]);
    } else {
      assert whole[0] == s[0] && whole[|whole| - 1] == after[|after| - 1];
      assert whole[..|whole| - 1] == s + after[..|after| - 1];
      StripAfter(s, after[..|after| - 1]);
    }
  }

  lemma {:induction false} StripPadded(before: string, s: string, after: string)
    requires Spaces(before) && Spaces(after) && (s == "" || Trim(s))
    ensures Strip(before + s + after) == s
  {
    if before == "" {
      assert before + s + after == s + after;
      StripAfter(s, after);
    } else {
      assert (before + s + after)[0] == before[0];
      assert (before + s + after)[1..] == before[1..] + s + after;
      StripPadded(before[1..], s, after);
    }
  }

  lemma QuotesAlone(body: string)
    requires '"' !in body
    ensures StripQuotes(body) == body
  {
    if body != "" {
      assert body[0] in body && body[|body| - 1] in body;
    }
  }

  lemma QuoteAtEnd(body: string)
    requires '"' !in body
    ensures StripQuotes(body + "\"") == body
  {
    var s := body + "\"";
    QuotesAlone(body);
    if body == "" {
      assert s[0] == '"' && s[1..] == "";
      assert StripQuotes(s) == StripQuotes(s[1..]);
    } else {
      assert s[0] == body[0] && body[0] in body;
      assert s[|s| - 1] == '"' && s[..|s| - 1] == body;
      assert StripQuotes(s) == StripQuotes(s[..|s| - 1]);
    }
  }

  lemma QuotesAround(body: string)
    requires '"' !in body
    ensures StripQuotes("\"" + body + "\"") == body
  {
    var s := "\"" + body + "\"";
    assert s[0] == '"' && s[1..] == body + "\"";
    assert StripQuotes(s) == StripQuotes(s[1..]);
    QuoteAtEnd(body);
  }

  /** Only quotes are stripped. */
  lemma {:induction false} OtherCharsStay(s: string, c: char)
    requires c in s && c != '"'
    ensures c in StripQuotes(s)
  {
    if s[0] == '"' {
      assert c in s[1..];
      OtherCharsStay(s[1..], c);
    } else if s[|s| - 1] == '"' {
      assert s == s[..|s| - 1] + [s[|s| - 1]];
      OtherCharsStay(s[..|s| - 1], c);
    }
  }

  lemma {:induction false} QuotesAddNothing(s: string, c: char)
    requires c !in s
    ensures c !in StripQuotes(s)
  {
    if s == "" {
    } else if s[0] == '"' {
      QuotesAddNothing(s[1..], c);
    } else if s[|s| - 1] == '"' {
      QuotesAddNothing(s[..|s| - 1], c);
    }
  }

  lemma {:induction false} LowerAt(s: string, i: nat)
    requires i < |s|
    ensures |Lower(s)| == |s| && Lower(s)[i] == if 'A' <= s[i] <= 'Z' then s[i] - 'A' + 'a' else s[i]
  {
    LowerLength(s);
    if i == 0 {
    } else {
      LowerAt(s[1..], i - 1);
    }
  }

  lemma {:induction false} LowerKeeps(s: string, c: char)
    requires c in s && !('A' <= c <= 'Z')
    ensures c in Lower(s)
  {
    if s[0] != c {
      assert c in s[1..];
      LowerKeeps(s[1..], c);
      assert Lower(s)[1..] == Lower(s[1..]);
    } else {
      assert Lower(s)[0] == c;
    }
  }

  lemma LowerLength(s: string)
    ensures |Lower(s)| == |s|
  {
  }

  // ---------------------------------------------------------------- one value

  /** The characters of a node. */
  predicate NodeChar(c: char) {
    ObfuscatedChar(c) || c == ':' || c == '[' || c == ']'
  }

  predicate LowerLetters(s: string) {
    s != "" && forall i :: 0 <= i < |s| ==> 'a' <= s[i] <= 'z'
  }

  lemma UnknownIsLetters()
    ensures LowerLetters(UNKNOWN) && UNKNOWN[0] == 'u'
  {
  }

  lemma UnknownChars(s: string, lowered: string)
    requires Lower(s) == lowered && LowerLetters(lowered) && lowered[0] == 'u'
    ensures s != "" && (s[0] == 'u' || s[0] == 'U') && forall i :: 0 <= i < |s| ==> ObfuscatedChar(s[i])
  {
    LowerAt(s, 0);
    forall i | 0 <= i < |s| ensures ObfuscatedChar(s[i]) {
      LowerAt(s, i);
    }
  }

  lemma NameChars(name: NodeName, ip: IpLibrary)
    requires Lawful(ip) && NodeOk(Node(name, None))
    ensures var s := PrintName(name, ip); s != "" && forall i :: 0 <= i < |s| ==> NodeChar(s[i])
  {
    match name {
      case Ip(address) => assert AddressText(ip.show(address));
      case Unknown(text) =>
        UnknownIsLetters();
        UnknownChars(text, Lower(text));
      case Obfuscated(text) =>
    }
  }

  lemma NodeChars(node: Node, ip: IpLibrary)
    requires Lawful(ip) && NodeOk(node)
    ensures var s := PrintNode(node, ip); s != "" && forall i :: 0 <= i < |s| ==> NodeChar(s[i])
  {
    NameChars(node.name, ip);
  }

  /** No separator inside a value, and no quote or backslash but from a quoted pair. */
  predicate Plain(s: string) {
    '"' !in s && '\\' !in s
  }

  lemma {:induction false} CharsPrint(chars: seq<QuotedChar>)
    requires forall i :: 0 <= i < |chars| ==> CharOk(chars[i])
    ensures ',' !in PrintChars(chars) && ';' !in PrintChars(chars)
    ensures (forall i :: 0 <= i < |chars| ==> !chars[i].escaped) ==> PrintChars(chars) == CharsOf(chars) && Plain(PrintChars(chars))
    ensures (exists i :: 0 <= i < |chars| && chars[i].escaped) ==> '\\' in PrintChars(chars)
  {
    if chars == [] {
    } else {
      var q, rest := chars[0], chars[1..];
      CharsPrint(rest);
      assert CharOk(q);
      var head := if q.escaped then ['\\', q.c] else [q.c];
      assert PrintChars(chars) == head + PrintChars(rest);
      if q.escaped {
        assert head[0] == '\\';
      } else if i :| 0 <= i < |chars| && chars[i].escaped {
        assert rest[i - 1] == chars[i];
      }
      if forall i :: 0 <= i < |chars| ==> !chars[i].escaped {
        assert forall i :: 0 <= i < |rest| ==> rest[i] == chars[i + 1];
      }
    }
  }

  lemma {:induction false} NoPercent(chars: seq<QuotedChar>)
    requires forall i :: 0 <= i < |chars| ==> chars[i].c != '%'
    ensures '%' !in PrintChars(chars)
  {
    if chars == [] {
    } else {
      NoPercent(chars[1..]);
      assert chars[0].c != '%';
    }
  }

  lemma NodeBody(node: Node, ip: IpLibrary)
    requires Lawful(ip) && NodeOk(node)
    ensures var s := PrintNode(node, ip); ',' !in s && ';' !in s && Trim(s) && Plain(s)
  {
    NodeChars(node, ip);
  }

  lemma TokenBody(s: string)
    requires IsToken(s)
    ensures ',' !in s && ';' !in s && Trim(s) && Plain(s)
  {
  }

  /** A body has no separator; without a quoted pair it is plain and what the value stands for; with one
      it holds a backslash. */
  lemma BodyChars(value: Value, ip: IpLibrary)
    requires Lawful(ip) && ValueOk(value)
    ensures ',' !in Body(value, ip) && ';' !in Body(value, ip)
    ensures !value.Quoted? ==> Trim(Body(value, ip))
    ensures !Escaped(value) ==> Plain(Body(value, ip)) && Body(value, ip) == Meaning(value, ip)
    ensures Escaped(value) ==> '\\' in Body(value, ip)
  {
    match value {
      case NodeValue(node, _) => NodeBody(node, ip);
      case Token(text) => TokenBody(text);
      case Quoted(chars) => CharsPrint(chars);
    }
  }

  lemma QuotedIsTrim(body: string)
    requires ',' !in body && ';' !in body
    ensures var s := "\"" + body + "\""; Trim(s) && ',' !in s && ';' !in s
  {
  }

  /** A printed value has no separator, is not empty, and is itself when stripped. */
  lemma PrintedValue(value: Value, ip: IpLibrary)
    requires Lawful(ip) && ValueOk(value)
    ensures var s := PrintValue(value, ip); Trim(s) && ',' !in s && ';' !in s && Strip(s) == s
  {
    BodyChars(value, ip);
    QuotedIsTrim(Body(value, ip));
  }

  /** Without a quoted pair, stripping the quotes leaves what the value stands for. */
  lemma UnquotedValue(value: Value, ip: IpLibrary)
    requires Lawful(ip) && ValueOk(value) && !Escaped(value)
    ensures StripQuotes(Strip(PrintValue(value, ip))) == Meaning(value, ip)
  {
    PrintedValue(value, ip);
    BodyChars(value, ip);
    QuotesAlone(Body(value, ip));
    QuotesAround(Body(value, ip));
  }

  /** With one, a backslash stays. */
  lemma EscapedValue(value: Value, ip: IpLibrary)
    requires Lawful(ip) && ValueOk(value) && Escaped(value)
    ensures '\\' in StripQuotes(Strip(PrintValue(value, ip)))
  {
    PrintedValue(value, ip);
    BodyChars(value, ip);
    OtherCharsStay(PrintValue(value, ip), '\\');
  }

  lemma FindAt(s: string, c: char, k: nat)
    requires k < |s| && s[k] == c && c !in s[..k]
    ensures Find(s, c) == Some(k)
  {
    var found := Find(s, c);
    assert found.Some?;
    assert forall i :: 0 <= i < k ==> s[..k][i] == s[i];
    assert forall i :: 0 <= i < found.value ==> s[..found.value][i] == s[i];
  }

  lemma FindLastAt(s: string, c: char, k: nat)
    requires k < |s| && s[k] == c && c !in s[k + 1..]
    ensures FindLast(s, c) == Some(k)
  {
    var found := FindLast(s, c);
    assert found.Some?;
    assert forall i :: k < i < |s| ==> s[i] == s[k + 1..][i - k - 1];
    assert forall i :: found.value < i < |s| ==> s[i] == s[found.value + 1..][i - found.value - 1];
  }

  /** The text of an address is not taken for a keyword, an obfuscated node or a bracketed one. */
  lemma AddressTextIsPlain(candidate: string)
    requires candidate != "" && AddressChar(candidate[0])
    ensures Lower(candidate) != "unknown" && candidate[0] != '_' && candidate[0] != '['
  {
    assert Lower(candidate)[0] == candidate[0];
  }

  lemma ReadV4(node: Node, text: string, ip: IpLibrary)
    requires Lawful(ip) && ForReadable(NodeValue(node, false)) && node.name.address.V4?
    requires StripQuotes(Strip(text)) == PrintNode(node, ip)
    ensures ParseAddress(text, ip) == Some(node.name.address)
  {
    var shown, candidate := ip.show(node.name.address), PrintNode(node, ip);
    assert AddressText(shown);
    assert candidate[0] == shown[0];
    AddressTextIsPlain(candidate);
    if node.port.Some? {
      var port := node.port.value;
      assert candidate == shown + ":" + port;
      assert candidate[|shown|] == ':' && candidate[|shown| + 1..] == port && candidate[..|shown|] == shown;
      FindLastAt(candidate, ':', |shown|);
      assert ip.parse(shown + ":" + port) == None;
    } else {
      assert candidate == shown;
    }
  }

  lemma ReadV6(node: Node, text: string, ip: IpLibrary)
    requires Lawful(ip) && ForReadable(NodeValue(node, false)) && node.name.address.V6?
    requires StripQuotes(Strip(text)) == PrintNode(node, ip)
    ensures ParseAddress(text, ip) == Some(node.name.address)
  {
    var shown, candidate := ip.show(node.name.address), PrintNode(node, ip);
    assert AddressText(shown);
    var suffix := if node.port.Some? then ":" + node.port.value else "";
    assert candidate == "[" + shown + "]" + suffix;
    var closing := |shown| + 1;
    assert candidate[0] == '[' && Lower(candidate)[0] == '[';
    assert candidate[closing] == ']' && candidate[1..closing] == shown && candidate[closing + 1..] == suffix;
    assert candidate[..closing] == "[" + shown;
    FindAt(candidate, ']', closing);
    if node.port.Some? {
      assert suffix[1..] == node.port.value;
    }
  }

  lemma NotALiteral(s: string, c: char, ip: IpLibrary)
    requires Lawful(ip) && c in s && '%' !in s && !LiteralChar(c)
    ensures ip.parse(s).None?
  {
    assert !Literal(s);
  }

  lemma StrangeInBrackets(candidate: string, c: char, ip: IpLibrary, closing: nat)
    requires Lawful(ip) && !LiteralChar(c) && c != '[' && c != ']' && c in candidate && '%' !in candidate
    requires candidate[0] == '[' && 0 < closing < |candidate| && candidate[closing] == ']'
    ensures ip.parse(candidate[1..closing]).None? || c in candidate[closing + 1..]
  {
    var k :| 0 <= k < |candidate| && candidate[k] == c;
    if k < closing {
      assert candidate[1..closing][k - 1] == c;
      NotALiteral(candidate[1..closing], c, ip);
    } else {
      assert candidate[closing + 1..][k - closing - 1] == c;
    }
  }

  lemma StrangeBeforePort(candidate: string, c: char, ip: IpLibrary, colon: nat)
    requires Lawful(ip) && !LiteralChar(c) && c in candidate && '%' !in candidate
    requires colon < |candidate| && candidate[colon] == ':'
    ensures ip.parse(candidate[..colon]).None? || c in candidate[colon + 1..]
  {
    var k :| 0 <= k < |candidate| && candidate[k] == c;
    if k < colon {
      assert candidate[..colon][k] == c;
      NotALiteral(candidate[..colon], c, ip);
    } else {
      assert candidate[colon + 1..][k - colon - 1] == c;
    }
  }

  /** A character that no literal, bracket or port holds makes the reader refuse, wherever it is. */
  lemma StrangeCharIsRefused(text: string, c: char, ip: IpLibrary)
    requires Lawful(ip) && !LiteralChar(c) && c != '[' && c != ']'
    requires var candidate := StripQuotes(Strip(text)); c in candidate && '%' !in candidate
    ensures ParseAddress(text, ip) == None
  {
    var candidate := StripQuotes(Strip(text));
    var closing, colon := Find(candidate, ']'), FindLast(candidate, ':');
    if candidate[0] == '[' {
      if closing.Some? {
        StrangeInBrackets(candidate, c, ip, closing.value);
      }
    } else {
      NotALiteral(candidate, c, ip);
      if colon.Some? {
        StrangeBeforePort(candidate, c, ip, colon.value);
      }
    }
  }

  /** A node that is no address, or whose port is obfuscated, is refused. */
  lemma UnreadableNode(node: Node, text: string, ip: IpLibrary)
    requires Lawful(ip) && NodeOk(node) && !ForReadable(NodeValue(node, false))
    requires StripQuotes(Strip(text)) == PrintNode(node, ip)
    ensures ParseAddress(text, ip) == None
  {
    var name, s := PrintName(node.name, ip), PrintNode(node, ip);
    NodeChars(node, ip);
    if node.name.Ip? {
      assert s[|name| + 1] == node.port.value[0];
      StrangeCharIsRefused(text, '_', ip);
    } else {
      if node.name.Unknown? {
        UnknownIsLetters();
        UnknownChars(name, Lower(name));
      }
      assert s[0] == name[0];
      StrangeCharIsRefused(text, name[0], ip);
    }
  }

  /** A printed node is read, quoted or not, if and only if it is an address with no port or a numeric
      one, and then as that address. */
  lemma NodeRoundTrip(value: Value, ip: IpLibrary)
    requires Lawful(ip) && value.NodeValue? && ValueOk(value)
    ensures ParseAddress(PrintValue(value, ip), ip) == if ForReadable(value) then Some(value.node.name.address) else None
  {
    UnquotedValue(value, ip);
    if !ForReadable(value) {
      UnreadableNode(value.node, PrintValue(value, ip), ip);
    } else if value.node.name.address.V4? {
      ReadV4(value.node, PrintValue(value, ip), ip);
    } else {
      ReadV6(value.node, PrintValue(value, ip), ip);
    }
  }

  /** With a quoted pair it never is. */
  lemma EscapedNodeIsRefused(value: Value, ip: IpLibrary)
    requires Lawful(ip) && ValueOk(value) && !value.NodeValue? && ForOk(value)
    ensures ParseAddress(PrintValue(value, ip), ip) == None
  {
    EscapedValue(value, ip);
    PrintedValue(value, ip);
    NoPercent(value.chars);
    var s := PrintValue(value, ip);
    QuotesAddNothing(s, '%');
    StrangeCharIsRefused(s, '\\', ip);
  }

  // ---------------------------------------------------------------- one element

  function PrintedValues(values: map<string, Value>, ip: IpLibrary): map<string, string> {
    map name | name in values :: PrintValue(values[name], ip)
  }

  lemma PairText(name: string, value: string)
    requires IsToken(name) && Trim(value) && ',' !in value && ';' !in value
    ensures var s := name + "=" + value;
            Trim(s) && ',' !in s && ';' !in s && Strip(s) == s && s[..|name|] == name && s[|name| + 1..] == value
  {
    var s := name + "=" + value;
    assert s[0] == name[0] && s[|s| - 1] == value[|value| - 1];
  }

  lemma PrintedPair(pair: Pair, ip: IpLibrary)
    requires Lawful(ip) && PairOk(pair)
    ensures var s := PrintPair(pair, ip);
            Trim(s) && ',' !in s && ';' !in s && Strip(s) == s && Find(s, '=') == Some(|pair.name|)
            && s[..|pair.name|] == pair.name && s[|pair.name| + 1..] == PrintValue(pair.value, ip)
  {
    PrintedValue(pair.value, ip);
    PairText(pair.name, PrintValue(pair.value, ip));
    FindAt(PrintPair(pair, ip), '=', |pair.name|);
  }

  lemma PairIsAdded(parameters: map<string, string>, pair: Pair, ip: IpLibrary)
    requires Lawful(ip) && PairOk(pair) && Lower(pair.name) !in parameters
    ensures AddParameter(parameters, Strip(PrintPair(pair, ip)))
            == Some(parameters[Lower(pair.name) := PrintValue(pair.value, ip)])
  {
    PrintedPair(pair, ip);
    PrintedValue(pair.value, ip);
    LowerLength(pair.name);
  }

  lemma NothingIsNoParameter(parameters: map<string, string>)
    ensures AddParameter(parameters, Strip("")).None?
  {
  }

  /** The printed pairs are read exactly when none is absent, and then every name comes back with its
      printed value. */
  lemma {:induction false} PairsRoundTrip(pairs: seq<Option<Pair>>, ip: IpLibrary)
    requires Lawful(ip) && NoNameTwice(pairs)
    requires forall i :: 0 <= i < |pairs| ==> SlotOk(pairs[i])
    ensures ParseParameters(PrintSlots(pairs, ip))
            == if AllPresent(pairs) then Some(PrintedValues(Values(pairs), ip)) else None
  {
    if pairs == [] {
    } else {
      var front, last := pairs[..|pairs| - 1], pairs[|pairs| - 1];
      PairsRoundTrip(front, ip);
      PairsSnoc(pairs, ip);
      assert AllPresent(pairs) <==> AllPresent(front) && last.Some?;
      if last.Some? {
        PairIsAdded(PrintedValues(Values(front), ip), last.value, ip);
      } else {
        NothingIsNoParameter(PrintedValues(Values(front), ip));
      }
    }
  }

  lemma PairsSnoc(pairs: seq<Option<Pair>>, ip: IpLibrary)
    requires pairs != []
    ensures var front, last := pairs[..|pairs| - 1], pairs[|pairs| - 1];
            && PrintSlots(pairs, ip) == PrintSlots(front, ip) + [PrintSlot(last, ip)]
            && PrintedValues(Values(pairs), ip)
               == if last.None? then PrintedValues(Values(front), ip)
                  else PrintedValues(Values(front), ip)[Lower(last.value.name) := PrintValue(last.value.value, ip)]
  {
    var front, last := pairs[..|pairs| - 1], pairs[|pairs| - 1];
    assert pairs == front + [last];
    MapConcat(front, [last], slot => PrintSlot(slot, ip));
  }

  lemma {:induction false} JoinedParts(parts: seq<string>, d: char, c: char)
    requires parts != [] && c != d && !IsSpace(d)
    requires forall i :: 0 <= i < |parts| ==> (parts[i] == "" || Trim(parts[i])) && c !in parts[i]
    ensures (Join(parts, d) == "" || Trim(Join(parts, d))) && c !in Join(parts, d)
    ensures (exists i :: 0 <= i < |parts| && parts[i] != "") ==> Join(parts, d) != ""
  {
    if |parts| <= 1 {
    } else {
      JoinedParts(parts[1..], d, c);
      var rest := Join(parts[1..], d);
      var whole := Join(parts, d);
      assert whole == parts[0] + [d] + rest;
      assert whole[0] == if parts[0] == "" then d else parts[0][0];
      assert whole[|whole| - 1] == if rest == "" then d else rest[|rest| - 1];
    }
  }

  lemma SlotIsPlain(slot: Option<Pair>, ip: IpLibrary)
    requires Lawful(ip) && SlotOk(slot)
    ensures var s := PrintSlot(slot, ip); (s == "" || Trim(s)) && ',' !in s && ';' !in s && (slot.Some? ==> s != "")
  {
    if slot.Some? {
      PrintedPair(slot.value, ip);
    }
  }

  lemma PartsArePlain(pairs: seq<Option<Pair>>, ip: IpLibrary)
    requires Lawful(ip) && forall i :: 0 <= i < |pairs| ==> SlotOk(pairs[i])
    ensures var parts := PrintSlots(pairs, ip);
            forall i :: 0 <= i < |parts| ==>
              (parts[i] == "" || Trim(parts[i])) && ',' !in parts[i] && ';' !in parts[i] && (pairs[i].Some? ==> parts[i] != "")
  {
    forall i | 0 <= i < |pairs|
      ensures var s := PrintSlots(pairs, ip)[i];
              (s == "" || Trim(s)) && ',' !in s && ';' !in s && (pairs[i].Some? ==> s != "")
    {
      SlotIsPlain(pairs[i], ip);
    }
  }

  lemma PaddingHasNoComma(before: string, body: string, after: string)
    requires Spaces(before) && Spaces(after) && ',' !in body
    ensures ',' !in before + body + after
  {
  }

  lemma ElementIsPlain(element: Element, ip: IpLibrary)
    requires Lawful(ip) && ElementOk(element)
    ensures ',' !in PrintElement(element, ip)
    ensures Strip(PrintElement(element, ip)) == PrintBody(element, ip)
    ensures Split(PrintBody(element, ip), ';') == PrintSlots(element.pairs, ip)
    ensures AllPresent(element.pairs) ==> PrintBody(element, ip) != ""
  {
    var parts := PrintSlots(element.pairs, ip);
    PartsArePlain(element.pairs, ip);
    JoinedParts(parts, ';', ',');
    SplitJoin(parts, ';');
    StripPadded(element.before, PrintBody(element, ip), element.after);
    PaddingHasNoComma(element.before, PrintBody(element, ip), element.after);
    if AllPresent(element.pairs) {
      assert parts[0] != "";
    }
  }

  lemma {:induction false} ValuesAreOk(pairs: seq<Option<Pair>>, name: string)
    requires forall i :: 0 <= i < |pairs| ==> SlotOk(pairs[i])
    requires name in Values(pairs)
    ensures ValueOk(Values(pairs)[name])
  {
    var last := pairs[|pairs| - 1];
    if last.None? || Lower(last.value.name) != name {
      ValuesAreOk(pairs[..|pairs| - 1], name);
    } else {
      assert SlotOk(last);
    }
  }

  lemma PrintedElement(element: Element, ip: IpLibrary)
    requires Lawful(ip) && ElementOk(element)
    ensures ParseElement(PrintBody(element, ip))
            == if AllPresent(element.pairs) then Some(PrintedValues(Values(element.pairs), ip)) else None
  {
    ElementIsPlain(element, ip);
    PairsRoundTrip(element.pairs, ip);
  }

  lemma PrintedFor(value: Value, ip: IpLibrary)
    requires Lawful(ip) && ValueOk(value) && ForOk(value)
    ensures ParseAddress(PrintValue(value, ip), ip) == if ForReadable(value) then Some(value.node.name.address) else None
  {
    if value.NodeValue? {
      NodeRoundTrip(value, ip);
    } else {
      EscapedNodeIsRefused(value, ip);
    }
  }

  /** An element is read exactly when nothing is absent and it names an address. */
  lemma ElementRoundTrip(element: Element, ip: IpLibrary)
    requires Lawful(ip) && ElementOk(element)
    ensures ParseElement(PrintBody(element, ip))
            == if AllPresent(element.pairs) then Some(PrintedValues(Values(element.pairs), ip)) else None
    ensures ElementAddress(PrintBody(element, ip), ip)
            == if ElementReadable(element) then Some(AddressOf(element)) else None
  {
    PrintedElement(element, ip);
    if "for" in Values(element.pairs) {
      ValuesAreOk(element.pairs, "for");
      PrintedFor(Values(element.pairs)["for"], ip);
      assert PrintedValues(Values(element.pairs), ip)["for"] == PrintValue(Values(element.pairs)["for"], ip);
    }
  }

  // ---------------------------------------------------------------- the first element

  lemma ProtoRoundTrip(element: Element, ip: IpLibrary)
    requires Lawful(ip) && ElementOk(element)
    ensures ForwardedProto(PrintedValues(Values(element.pairs), ip))
            == if ProtoReadable(element, ip) then Some(ProtoOf(element, ip)) else None
  {
    if "proto" in Values(element.pairs) {
      var value := Values(element.pairs)["proto"];
      ValuesAreOk(element.pairs, "proto");
      if Escaped(value) {
        EscapedValue(value, ip);
        LowerKeeps(StripQuotes(Strip(PrintValue(value, ip))), '\\');
      } else {
        UnquotedValue(value, ip);
      }
    }
  }

  /** A printed host is valid exactly when it is one. */
  lemma PrintedHost(value: Value, ip: IpLibrary)
    requires Lawful(ip) && ValueOk(value)
    ensures ValidHost(PrintValue(value, ip)) == if IsHost(value, ip) then Some(Meaning(value, ip)) else None
  {
    PrintedValue(value, ip);
    if Escaped(value) {
      EscapedValue(value, ip);
      var text := StripQuotes(Strip(PrintValue(value, ip)));
      var i :| 0 <= i < |text| && text[i] == '\\';
      assert ForbiddenInHost(text[i]);
    } else {
      UnquotedValue(value, ip);
    }
  }

  lemma HostRoundTrip(element: Element, ip: IpLibrary)
    requires Lawful(ip) && ElementOk(element)
    ensures ForwardedHost(PrintedValues(Values(element.pairs), ip))
            == if HostReadable(element, ip) then Some(HostOf(element, ip)) else None
  {
    if "host" in Values(element.pairs) {
      ValuesAreOk(element.pairs, "host");
      PrintedValue(Values(element.pairs)["host"], ip);
      PrintedHost(Values(element.pairs)["host"], ip);
    }
  }

  // ---------------------------------------------------------------- the header

  function AddressesOf(elements: seq<Element>): (addresses: seq<Address>)
    requires forall i :: 0 <= i < |elements| ==> ElementOk(elements[i]) && ElementReadable(elements[i])
    ensures |addresses| == |elements| && forall i :: 0 <= i < |elements| ==> addresses[i] == AddressOf(elements[i])
  {
    seq(|elements|, i requires 0 <= i < |elements| => AddressOf(elements[i]))
  }

  function Bodies(elements: seq<Element>, ip: IpLibrary): seq<string> {
    Map(elements, element => PrintBody(element, ip))
  }

  /** For any list of elements in the grammar: the printed header is read if and only if there are at most
      limit elements, none of them has an absent pair, each has a `for` that can be read, and the first one's proto
      and host can be read. What is read is the addresses in order and that proto and host. */
  lemma HeaderRoundTrip(elements: seq<Element>, limit: nat, ip: IpLibrary)
    requires Lawful(ip) && elements != []
    requires forall i :: 0 <= i < |elements| ==> ElementOk(elements[i])
    ensures ForwardedChain(Print(elements, ip), limit, ip)
            == if Readable(elements, limit, ip)
               then Some(Chain(AddressesOf(elements), ProtoOf(elements[0], ip), HostOf(elements[0], ip)))
               else None
  {
    HeaderElements(elements, ip);
    ElementRoundTrip(elements[0], ip);
    ProtoRoundTrip(elements[0], ip);
    HostRoundTrip(elements[0], ip);
    if forall i :: 0 <= i < |elements| ==> ElementReadable(elements[i]) {
      BodiesAreRead(elements, ip);
    } else {
      var i :| 0 <= i < |elements| && !ElementReadable(elements[i]);
      BodyIsRefused(elements, ip, i);
    }
  }

  lemma HeaderElements(elements: seq<Element>, ip: IpLibrary)
    requires Lawful(ip) && elements != []
    requires forall i :: 0 <= i < |elements| ==> ElementOk(elements[i])
    ensures StripAll(Split(Print(elements, ip), ',')) == Bodies(elements, ip)
    ensures (forall i :: 0 <= i < |elements| ==> ElementReadable(elements[i])) ==> "" !in Bodies(elements, ip)
  {
    var printed := Map(elements, element => PrintElement(element, ip));
    forall i | 0 <= i < |elements|
      ensures ',' !in printed[i] && Strip(printed[i]) == PrintBody(elements[i], ip)
      ensures ElementReadable(elements[i]) ==> PrintBody(elements[i], ip) != ""
    {
      ElementIsPlain(elements[i], ip);
    }
    SplitJoin(printed, ',');
    assert StripAll(printed) == Bodies(elements, ip);
  }

  lemma BodiesAreRead(elements: seq<Element>, ip: IpLibrary)
    requires Lawful(ip)
    requires forall i :: 0 <= i < |elements| ==> ElementOk(elements[i]) && ElementReadable(elements[i])
    ensures AllSome(ElementAddresses(Bodies(elements, ip), ip)) == Some(AddressesOf(elements))
  {
    var found := ElementAddresses(Bodies(elements, ip), ip);
    forall i | 0 <= i < |elements| ensures found[i] == Some(AddressOf(elements[i])) {
      ElementRoundTrip(elements[i], ip);
    }
    AllSomeIs(found);
    assert AllSome(found).value == AddressesOf(elements);
  }

  lemma BodyIsRefused(elements: seq<Element>, ip: IpLibrary, i: nat)
    requires Lawful(ip) && i < |elements| && ElementOk(elements[i]) && !ElementReadable(elements[i])
    ensures AllSome(ElementAddresses(Bodies(elements, ip), ip)).None?
  {
    var found := ElementAddresses(Bodies(elements, ip), ip);
    ElementRoundTrip(elements[i], ip);
    assert found[i].None?;
    AllSomeIs(found);
  }

  lemma EmptyPartIsRefused(element: string, j: nat)
    requires j < |Split(element, ';')| && Strip(Split(element, ';')[j]) == ""
    ensures ParseElement(element).None?
  {
    var parts := Split(element, ';');
    assert parts[..j + 1][..j] == parts[..j];
    assert ParseParameters(parts[..j + 1]).None?;
    OneBadParameter(parts, j + 1);
  }

  /** On any text: an empty part of any element makes the reader refuse the header. */
  lemma EmptyPairIsRefused(elements: seq<string>, limit: nat, ip: IpLibrary, i: nat, j: nat)
    requires i < |elements| && j < |Split(elements[i], ';')| && Strip(Split(elements[i], ';')[j]) == ""
    ensures ChainOfElements(elements, limit, ip).None?
  {
    EmptyPartIsRefused(elements[i], j);
    OneBadElement(elements, ip, i);
  }

  // ---------------------------------------------------------------- the X-Forwarded headers

  /** One hop of X-Forwarded-For, with optional white space around. */
  datatype Hop = Hop(before: string, node: Value, after: string)

  predicate HopOk(hop: Hop) {
    Spaces(hop.before) && Spaces(hop.after) && hop.node.NodeValue? && ValueOk(hop.node)
  }

  function PrintHops(hops: seq<Hop>, ip: IpLibrary): string {
    Join(Map(hops, (hop: Hop) => hop.before + PrintValue(hop.node, ip) + hop.after), ',')
  }

  function HopAddress(hop: Hop): Address
    requires HopOk(hop) && ForReadable(hop.node)
  {
    hop.node.node.name.address
  }

  function NodesOf(hops: seq<Hop>): (addresses: seq<Address>)
    requires forall i :: 0 <= i < |hops| ==> HopOk(hops[i]) && ForReadable(hops[i].node)
    ensures |addresses| == |hops| && forall i :: 0 <= i < |hops| ==> addresses[i] == HopAddress(hops[i])
  {
    seq(|hops|, i requires 0 <= i < |hops| => HopAddress(hops[i]))
  }

  lemma PrintedHops(hops: seq<Hop>, ip: IpLibrary)
    requires Lawful(ip) && hops != [] && forall i :: 0 <= i < |hops| ==> HopOk(hops[i])
    ensures var parts := StripAll(Split(PrintHops(hops, ip), ','));
            && PrintHops(hops, ip) != "" && |parts| == |hops| && "" !in parts
            && forall i :: 0 <= i < |hops| ==> parts[i] == PrintValue(hops[i].node, ip)
  {
    var printed := Map(hops, (hop: Hop) => hop.before + PrintValue(hop.node, ip) + hop.after);
    forall i | 0 <= i < |hops|
      ensures ',' !in printed[i] && Strip(printed[i]) == PrintValue(hops[i].node, ip) != ""
    {
      PrintedValue(hops[i].node, ip);
      StripPadded(hops[i].before, PrintValue(hops[i].node, ip), hops[i].after);
      PaddingHasNoComma(hops[i].before, PrintValue(hops[i].node, ip), hops[i].after);
    }
    SplitJoin(printed, ',');
    NothingIsAnEmptyPart();
  }

  lemma HopsAreRead(hops: seq<Hop>, parts: seq<string>, ip: IpLibrary)
    requires Lawful(ip) && |parts| == |hops| && forall i :: 0 <= i < |hops| ==> HopOk(hops[i])
    requires forall i :: 0 <= i < |hops| ==> parts[i] == PrintValue(hops[i].node, ip)
    ensures AllSome(PlainAddresses(parts, ip))
            == if forall i :: 0 <= i < |hops| ==> ForReadable(hops[i].node) then Some(NodesOf(hops)) else None
  {
    var found := PlainAddresses(parts, ip);
    forall i | 0 <= i < |hops|
      ensures found[i] == if ForReadable(hops[i].node) then Some(HopAddress(hops[i])) else None
    {
      NodeRoundTrip(hops[i].node, ip);
    }
    AllSomeIs(found);
    if forall i :: 0 <= i < |hops| ==> ForReadable(hops[i].node) {
      assert AllSome(found).value == NodesOf(hops);
    } else {
      var i :| 0 <= i < |hops| && !ForReadable(hops[i].node);
      assert found[i].None?;
    }
  }

  /** X-Forwarded-For with any hops, X-Forwarded-Proto with any token and X-Forwarded-Host with any value, the
      last two optional: read if and only if there are at most limit hops, each is an address, the proto is http
      or https in any case and the host is one; what is read is the addresses in order, that proto and that host. */
  lemma XHeadersRoundTrip(hops: seq<Hop>, proto: Option<string>, host: Option<Value>, r: Request, limit: nat, ip: IpLibrary)
    requires Lawful(ip) && hops != [] && forall i :: 0 <= i < |hops| ==> HopOk(hops[i])
    requires (proto.Some? ==> IsToken(proto.value)) && (host.Some? ==> ValueOk(host.value))
    requires r.xFor == Some(PrintHops(hops, ip)) && r.xProto == proto
    requires r.xHost == if host.Some? then Some(PrintValue(host.value, ip)) else None
    ensures XForwardedChain(r, limit, ip)
            == if && |hops| <= limit && (forall i :: 0 <= i < |hops| ==> ForReadable(hops[i].node))
                  && (proto.Some? ==> Lower(proto.value) == "http" || Lower(proto.value) == "https")
                  && (host.Some? ==> IsHost(host.value, ip))
               then Some(Chain(NodesOf(hops), if proto.Some? then Some(Lower(proto.value)) else None,
                               if host.Some? then Some(Meaning(host.value, ip)) else None))
               else None
  {
    var parts := StripAll(Split(PrintHops(hops, ip), ','));
    PrintedHops(hops, ip);
    HopsAreRead(hops, parts, ip);
    XChainShape(r, limit, ip);
    if proto.Some? {
      TokenBody(proto.value);
      StripPadded("", proto.value, "");
      assert "" + proto.value + "" == proto.value;
    }
    if host.Some? {
      PrintedValue(host.value, ip);
      PrintedHost(host.value, ip);
    }
  }
}
