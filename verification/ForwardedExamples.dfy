/** Requests at which the conditions of the Forwarded header theorems fail. */
module ForwardedExamples {
  import opened Common
  import opened Text
  import opened Forwarding
  import opened ForwardedPrinter
  import opened IpLiterals

  const PROXY := V4(1)
  const CLIENT := V4(2)
  const SETTINGS := Settings((a: Address) => a == PROXY, 2)

  function ForPair(a: Address): Option<Pair> {
    Some(Pair("for", NodeValue(Node(Ip(a), None), false)))
  }

  function ProtoPair(value: Value): Option<Pair> {
    Some(Pair("proto", value))
  }

  lemma NamesDiffer()
    ensures Lower("for") == "for" && Lower("proto") == "proto"
  {
  }

  /** for=<address> */
  lemma OneHop(a: Address)
    ensures var e := Element("", [ForPair(a)], "");
            ElementOk(e) && Values(e.pairs) == map["for" := ForPair(a).value.value]
  {
    var e := Element("", [ForPair(a)], "");
    NamesDiffer();
    assert e.pairs[..0] == [];
    assert Values(e.pairs) == Values([])["for" := ForPair(a).value.value];
    assert SlotOk(e.pairs[0]);
  }

  /** for=<address> and one more slot. */
  lemma TwoSlots(a: Address, slot: Option<Pair>)
    requires SlotOk(slot) && (slot.Some? ==> slot.value.name == "proto")
    ensures var e := Element("", [ForPair(a), slot], "");
            && ElementOk(e)
            && Values(e.pairs) == if slot.None? then map["for" := ForPair(a).value.value]
                                  else map["for" := ForPair(a).value.value, "proto" := slot.value.value]
  {
    var e := Element("", [ForPair(a), slot], "");
    NamesDiffer();
    OneHop(a);
    assert e.pairs[..1] == [ForPair(a)];
  }

  /** The header of one element. */
  lemma OneElement(e: Element, text: string, limit: nat, ip: IpLibrary)
    requires Lawful(ip) && ElementOk(e) && limit >= 1 && text == Print([e], ip)
    ensures ElementReadable(e) && ProtoReadable(e, ip) && HostReadable(e, ip) ==>
              ForwardedChain(text, limit, ip) == Some(Chain([AddressOf(e)], ProtoOf(e, ip), HostOf(e, ip)))
    ensures !ElementReadable(e) || !ProtoReadable(e, ip) ==> ForwardedChain(text, limit, ip) == None
    ensures |Split(text, ',')| == 1
  {
    HeaderRoundTrip([e], limit, ip);
    HeaderElements([e], ip);
    if ElementReadable(e) {
      assert AddressesOf([e]) == [AddressOf(e)];
    }
  }

  lemma ProxyIsRead()
    ensures ParseAddress(Show(PROXY), LIBRARY) == Some(PROXY)
  {
    LibraryIsLawful();
    var value := NodeValue(Node(Ip(PROXY), None), false);
    NodeRoundTrip(value, LIBRARY);
    assert PrintValue(value, LIBRARY) == Show(PROXY) + "" == Show(PROXY);
  }

  /** What the proxy appends, and what the client had sent before. */
  const HONEST := Element("", [ForPair(CLIENT)], "")
  const CLAIMED := Element("", [ForPair(CLIENT), ProtoPair(Token("https"))], "")

  lemma HonestChain(text: string)
    requires text == Print([HONEST], LIBRARY)
    ensures ForwardedChain(text, 2, LIBRARY) == Some(Chain([CLIENT], None, None)) && |Split(text, ',')| == 1
  {
    LibraryIsLawful();
    OneHop(CLIENT);
    OneElement(HONEST, text, 2, LIBRARY);
  }

  lemma LowerHttps()
    ensures Lower("https") == "https"
  {
  }

  lemma ClaimedSaysHttps(e: Element, value: Value)
    requires e == CLAIMED && value == Token("https")
    ensures ElementOk(e) && AllPresent(e.pairs)
    ensures Values(e.pairs) == map["for" := ForPair(CLIENT).value.value, "proto" := value]
  {
    HttpsIsOk();
    assert e.pairs == [ForPair(CLIENT), ProtoPair(value)];
    TwoSlots(CLIENT, ProtoPair(value));
  }

  /** for=<address> and a proto without a quoted pair. */
  lemma ProtoIsRead(e: Element, a: Address, value: Value, ip: IpLibrary)
    requires ElementOk(e) && AllPresent(e.pairs)
    requires Values(e.pairs) == map["for" := ForPair(a).value.value, "proto" := value]
    requires !Escaped(value) && (Lower(Meaning(value, ip)) == "http" || Lower(Meaning(value, ip)) == "https")
    ensures ElementReadable(e) && ProtoReadable(e, ip) && HostReadable(e, ip)
    ensures AddressOf(e) == a && ProtoOf(e, ip) == Some(Lower(Meaning(value, ip))) && HostOf(e, ip) == None
  {
    assert "host" !in Values(e.pairs);
  }

  lemma ClaimedChain(e: Element, text: string, value: Value, ip: IpLibrary)
    requires e == CLAIMED && value == Token("https") && Lawful(ip) && text == Print([e], ip)
    ensures ForwardedChain(text, 2, ip) == Some(Chain([CLIENT], Some("https"), None)) && |Split(text, ',')| == 1
  {
    ClaimedSaysHttps(e, value);
    LowerHttps();
    ProtoIsRead(e, CLIENT, value, ip);
    OneElement(e, text, 2, ip);
  }

  lemma FromProxy(text: string, c: Chain)
    requires ForwardedChain(text, 2, LIBRARY) == Some(c) && c.addresses != []
    ensures Resolve(Request(Some(Show(PROXY)), "http", None, Some(text), None, None, None), SETTINGS, LIBRARY)
            == WithChain(Context(Show(PROXY), Show(PROXY), "http", None, false), Some(c), SETTINGS, LIBRARY)
  {
    ProxyIsRead();
  }

  /** The client's element says https, the proxy's says nothing: the client stays, the scheme does not. */
  lemma PrefixMayChangeTheScheme(honest: string, claimed: string)
    requires honest == Print([HONEST], LIBRARY) && claimed == Print([CLAIMED], LIBRARY)
    ensures var r := Request(Some(Show(PROXY)), "http", None, Some(honest), None, None, None);
            var spoofed := r.(forwarded := Some(claimed + "," + honest));
            && Resolve(r, SETTINGS, LIBRARY) == Resolved(Context(Show(PROXY), Show(CLIENT), "http", None, true))
            && Resolve(spoofed, SETTINGS, LIBRARY) == Resolved(Context(Show(PROXY), Show(CLIENT), "https", None, true))
  {
    HonestChain(honest);
    LibraryIsLawful();
    ClaimedChain(CLAIMED, claimed, Token("https"), LIBRARY);
    ChainsConcatenate(claimed, honest, 2, LIBRARY);
    var hops := [CLIENT] + [CLIENT];
    FromProxy(honest, Chain([CLIENT], None, None));
    FromProxy(claimed + "," + honest, Chain(hops, Some("https"), None));
    RightmostIsClient([CLIENT], SETTINGS.trusted, 0);
    RightmostIsClient(hops, SETTINGS.trusted, 1);
  }

  lemma HttpsIsOk()
    ensures SlotOk(ProtoPair(Token("https")))
  {
  }

  /** An element the grammar admits and the reader does not: a pair is absent. */
  lemma AbsentPairIsRefused(text: string, limit: nat)
    requires limit >= 1 && text == Print([Element("", [ForPair(CLIENT), None], "")], LIBRARY)
    ensures ElementOk(Element("", [ForPair(CLIENT), None], "")) && ForwardedChain(text, limit, LIBRARY) == None
  {
    var e := Element("", [ForPair(CLIENT), None], "");
    TwoSlots(CLIENT, None);
    LibraryIsLawful();
    assert e.pairs[1].None?;
    OneElement(e, text, limit, LIBRARY);
  }

  const ESCAPED_HTTP :=
    Quoted([QuotedChar('h', true), QuotedChar('t', false), QuotedChar('t', false), QuotedChar('p', false)])

  lemma EscapedHttp()
    ensures Meaning(ESCAPED_HTTP, LIBRARY) == "http" && Escaped(ESCAPED_HTTP) && SlotOk(ProtoPair(ESCAPED_HTTP))
  {
    assert ESCAPED_HTTP.chars[0].escaped;
  }

  /** proto=http with its first character as a quoted pair. */
  lemma QuotedPairInProtoIsRefused(text: string, limit: nat)
    requires limit >= 1 && text == Print([Element("", [ForPair(CLIENT), ProtoPair(ESCAPED_HTTP)], "")], LIBRARY)
    ensures ElementOk(Element("", [ForPair(CLIENT), ProtoPair(ESCAPED_HTTP)], ""))
    ensures Meaning(ESCAPED_HTTP, LIBRARY) == "http" && ForwardedChain(text, limit, LIBRARY) == None
  {
    var e := Element("", [ForPair(CLIENT), ProtoPair(ESCAPED_HTTP)], "");
    EscapedHttp();
    TwoSlots(CLIENT, ProtoPair(ESCAPED_HTTP));
    LibraryIsLawful();
    OneElement(e, text, limit, LIBRARY);
  }

  function Unescaped(s: string): seq<QuotedChar> {
    if s == "" then [] else [QuotedChar(s[0], false)] + Unescaped(s[1..])
  }

  /** The same text with its first character as a quoted pair. */
  function FirstEscaped(s: string): Value
    requires s != ""
  {
    Quoted([QuotedChar(s[0], true)] + Unescaped(s[1..]))
  }

  lemma {:induction false} UnescapedChars(s: string)
    requires forall i :: 0 <= i < |s| ==> NodeChar(s[i])
    ensures CharsOf(Unescaped(s)) == s
    ensures forall i :: 0 <= i < |Unescaped(s)| ==> CharOk(Unescaped(s)[i]) && Unescaped(s)[i].c != '%'
  {
    if s == "" {
    } else {
      UnescapedChars(s[1..]);
      assert CharOk(QuotedChar(s[0], false));
    }
  }

  lemma EscapedFor(s: string)
    requires s != "" && forall i :: 0 <= i < |s| ==> NodeChar(s[i])
    ensures var value := FirstEscaped(s);
            ValueOk(value) && ForOk(value) && CharsOf(value.chars) == s
  {
    UnescapedChars(s[1..]);
    var value := FirstEscaped(s);
    assert value.chars[0].escaped && value.chars[1..] == Unescaped(s[1..]);
    assert CharOk(value.chars[0]);
  }

  lemma OneFor(e: Element, value: Value)
    requires ValueOk(value) && ForOk(value) && e == Element("", [Some(Pair("for", value))], "")
    ensures ElementOk(e) && Values(e.pairs) == map["for" := value]
  {
    NamesDiffer();
    assert e.pairs[..0] == [];
    assert Values(e.pairs) == Values([])["for" := value];
    assert SlotOk(e.pairs[0]);
  }

  /** Any node at all in `for`, its first character written as a quoted pair: it means that node, and the
      header is refused. */
  lemma QuotedPairInForIsRefused(node: Node, e: Element, text: string, limit: nat, ip: IpLibrary)
    requires Lawful(ip) && NodeOk(node) && limit >= 1 && PrintNode(node, ip) != ""
    requires e == Element("", [Some(Pair("for", FirstEscaped(PrintNode(node, ip))))], "") && text == Print([e], ip)
    ensures ElementOk(e) && Meaning(e.pairs[0].value.value, ip) == PrintNode(node, ip)
    ensures ForwardedChain(text, limit, ip) == None
  {
    NodeChars(node, ip);
    EscapedFor(PrintNode(node, ip));
    OneFor(e, FirstEscaped(PrintNode(node, ip)));
    OneElement(e, text, limit, ip);
  }
}
