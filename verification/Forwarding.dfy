/** Client resolution behind trusted proxies, backend/app/security/auth.py: the Forwarded header of
    RFC 7239, the X-Forwarded headers, and the choice of the client among the hops. */
module Forwarding {
  import opened Common
  import opened Text

  type V4Value = n: nat | n < 0x1_0000_0000
  type V6Value = n: nat | n < 0x1_0000_0000_0000_0000_0000_0000_0000_0000

  datatype Address = V4(v4: V4Value) | V6(v6: V6Value)

  /** ipaddress.ip_address and str() of its result. */
  datatype IpLibrary = IpLibrary(parse: string -> Option<Address>, show: Address -> string)

  // ---------------------------------------------------------------- one node

  /** _address: an IP literal, bracketed or not, with an optional port; None is its ValueError. */
  function ParseAddress(value: string, ip: IpLibrary): Option<Address> {
    var candidate := StripQuotes(Strip(value));
    if candidate == "" || Lower(candidate) == "unknown" || candidate[0] == '_' then None
    else if candidate[0] == '[' then
      match Find(candidate, ']')
      case None => None
      case Some(closing) =>
        var suffix := candidate[closing + 1..];
        if suffix != "" && (suffix[0] != ':' || !Digits(suffix[1..])) then None
        else ip.parse(candidate[1..closing])
    else if ip.parse(candidate).Some? then ip.parse(candidate)
    else
      match FindLast(candidate, ':')
      case None => None
      case Some(k) => if Digits(candidate[k + 1..]) then ip.parse(candidate[..k]) else None
  }

  // ---------------------------------------------------------------- the Forwarded header

  /** The loop over the ;-separated parameters of one element. */
  function ParseParameters(parts: seq<string>): Option<map<string, string>> {
    if parts == [] then Some(map[])
    else
      match ParseParameters(parts[..|parts| - 1])
      case None => None
      case Some(parameters) => AddParameter(parameters, Strip(parts[|parts| - 1]))
  }

  function AddParameter(parameters: map<string, string>, part: string): Option<map<string, string>> {
    match Find(part, '=')
    case None => None
    case Some(k) =>
      var key, raw := Lower(part[..k]), part[k + 1..];
      if key == "" || raw == "" || key in parameters then None
      else Some(parameters[key := Strip(raw)])
  }

  function ParseElement(element: string): Option<map<string, string>> {
    ParseParameters(Split(element, ';'))
  }

  function ElementAddress(element: string, ip: IpLibrary): Option<Address> {
    match ParseElement(element)
    case None => None
    case Some(parameters) => if "for" in parameters then ParseAddress(parameters["for"], ip) else None
  }

  function ElementAddresses(elements: seq<string>, ip: IpLibrary): seq<Option<Address>> {
    Map(elements, element => ElementAddress(element, ip))
  }

  function PlainAddresses(parts: seq<string>, ip: IpLibrary): seq<Option<Address>> {
    Map(parts, part => ParseAddress(part, ip))
  }

  function StripAll(elements: seq<string>): seq<string> {
    Map(elements, Strip)
  }

  datatype Chain = Chain(addresses: seq<Address>, proto: Option<string>, host: Option<string>)

  /** None when the value is not http or https; Some(None) when the parameter is absent. */
  function ForwardedProto(parameters: map<string, string>): Option<Option<string>> {
    if "proto" !in parameters then Some(None)
    else
      var proto := Lower(StripQuotes(Strip(parameters["proto"])));
      if proto == "http" || proto == "https" then Some(Some(proto)) else None
  }

  predicate ForbiddenInHost(c: char) {
    c == '/' || c == '\\' || c == '@' || c == '#' || c == '?' || c == '\r' || c == '\n'
  }

  /** _valid_forwarded_host; None is its ValueError. */
  function ValidHost(value: string): Option<string> {
    var host := StripQuotes(Strip(value));
    if host == "" || |host| > 255 || exists i :: 0 <= i < |host| && ForbiddenInHost(host[i]) then None else Some(host)
  }

  function ForwardedHost(parameters: map<string, string>): Option<Option<string>> {
    if "host" !in parameters || parameters["host"] == "" then Some(None)
    else
      match ValidHost(parameters["host"])
      case None => None
      case Some(h) => Some(Some(h))
  }

  /** The addresses of all elements with the proto and host of the first. */
  function Assemble(addresses: Option<seq<Address>>, first: Option<map<string, string>>): (r: Option<Chain>)
    ensures r.Some? ==> addresses == Some(r.value.addresses)
  {
    if addresses.None? || first.None? then None
    else
      match (ForwardedProto(first.value), ForwardedHost(first.value))
      case (Some(proto), Some(host)) => Some(Chain(addresses.value, proto, host))
      case _ => None
  }

  function ChainOfElements(elements: seq<string>, limit: nat, ip: IpLibrary): (r: Option<Chain>)
    requires elements != []
    ensures r.Some? ==> 0 < |r.value.addresses| <= limit
  {
    AllSomeIs(ElementAddresses(elements, ip));
    if |elements| > limit || "" in elements then None
    else Assemble(AllSome(ElementAddresses(elements, ip)), ParseElement(elements[0]))
  }

  /** _forwarded_chain; None is its ValueError. */
  function ForwardedChain(value: string, limit: nat, ip: IpLibrary): (r: Option<Chain>)
    ensures r.Some? ==> 0 < |r.value.addresses| <= limit
  {
    ChainOfElements(StripAll(Split(value, ',')), limit, ip)
  }

  /** _forwarded_chain with its loops: elements outside, parameters inside, duplicates refused. */
  method ReadForwarded(value: string, limit: nat, ip: IpLibrary) returns (r: Option<Chain>)
    ensures r == ForwardedChain(value, limit, ip)
  {
    var elements := StripAll(Split(value, ','));
    if |elements| > limit || "" in elements {
      return None;
    }
    var addresses, first := ReadElements(elements, ip);
    if addresses.None? {
      return None;
    }
    var proto, host := ForwardedProto(first), ForwardedHost(first);
    if proto.None? || host.None? {
      return None;
    }
    return Some(Chain(addresses.value, proto.value, host.value));
  }

  /** The part of the elements read so far. */
  ghost predicate ReadSoFar(elements: seq<string>, ip: IpLibrary, index: nat, found: seq<Address>) {
    index <= |elements| && AllSome(ElementAddresses(elements[..index], ip)) == Some(found)
  }

  lemma ReadOneMore(elements: seq<string>, ip: IpLibrary, index: nat, found: seq<Address>)
    requires index < |elements| && ReadSoFar(elements, ip, index, found)
    ensures ElementAddress(elements[index], ip).Some? ==>
              ReadSoFar(elements, ip, index + 1, found + [ElementAddress(elements[index], ip).value])
    ensures ElementAddress(elements[index], ip).None? ==> AllSome(ElementAddresses(elements, ip)).None?
  {
    var item := ElementAddress(elements[index], ip);
    AddressesSnoc(elements, ip, index);
    AllSomeSnoc(ElementAddresses(elements[..index], ip), item);
    if item.None? {
      OneBadElement(elements, ip, index);
    }
  }

  lemma AddressesSnoc(elements: seq<string>, ip: IpLibrary, index: nat)
    requires index < |elements|
    ensures ElementAddresses(elements[..index + 1], ip)
            == ElementAddresses(elements[..index], ip) + [ElementAddress(elements[index], ip)]
  {
    assert elements[..index + 1] == elements[..index] + [elements[index]];
    MapConcat(elements[..index], [elements[index]], element => ElementAddress(element, ip));
  }

  lemma OneBadElement(elements: seq<string>, ip: IpLibrary, i: nat)
    requires i < |elements| && ElementAddress(elements[i], ip).None?
    ensures AllSome(ElementAddresses(elements, ip)).None?
  {
    AllSomeIs(ElementAddresses(elements, ip));
    assert ElementAddresses(elements, ip)[i].None?;
  }

  method ReadElements(elements: seq<string>, ip: IpLibrary)
    returns (addresses: Option<seq<Address>>, first: map<string, string>)
    requires elements != []
    ensures addresses == AllSome(ElementAddresses(elements, ip))
    ensures addresses.Some? ==> ParseElement(elements[0]) == Some(first)
  {
    var found: seq<Address> := [];
    first := map[];
    for index := 0 to |elements|
      invariant ReadSoFar(elements, ip, index, found)
      invariant index > 0 ==> ParseElement(elements[0]) == Some(first)
    {
      var address, parameters := ReadElement(elements[index], ip);
      ReadOneMore(elements, ip, index, found);
      if address.None? {
        return None, first;
      }
      found := found + [address.value];
      if index == 0 {
        first := parameters;
      }
    }
    assert elements[..|elements|] == elements;
    return Some(found), first;
  }

  /** One element: its parameters, then the address in `for`. */
  method ReadElement(element: string, ip: IpLibrary) returns (address: Option<Address>, parameters: map<string, string>)
    ensures address == ElementAddress(element, ip)
    ensures address.Some? ==> ParseElement(element) == Some(parameters)
  {
    var parsed := ReadParameters(element);
    if parsed.None? || "for" !in parsed.value {
      return None, map[];
    }
    parameters := parsed.value;
    address := ParseAddress(parameters["for"], ip);
  }

  method ReadParameters(element: string) returns (r: Option<map<string, string>>)
    ensures r == ParseElement(element)
  {
    var parts := Split(element, ';');
    var parameters: map<string, string> := map[];
    for i := 0 to |parts|
      invariant ParseParameters(parts[..i]) == Some(parameters)
    {
      assert parts[..i + 1][..i] == parts[..i];
      var added := AddParameter(parameters, Strip(parts[i]));
      if added.None? {
        OneBadParameter(parts, i + 1);
        return None;
      }
      parameters := added.value;
    }
    assert parts[..|parts|] == parts;
    return Some(parameters);
  }

  lemma {:induction false} OneBadParameter(parts: seq<string>, n: nat)
    requires n <= |parts| && ParseParameters(parts[..n]).None?
    ensures ParseParameters(parts).None?
    decreases |parts|
  {
    if n < |parts| {
      assert parts[..|parts| - 1][..n] == parts[..n];
      OneBadParameter(parts[..|parts| - 1], n);
    } else {
      assert parts[..n] == parts;
    }
  }

  // ---------------------------------------------------------------- the X-Forwarded headers

  /** _x_forwarded_chain; None is its ValueError. */
  function XForwardedChain(r: Request, limit: nat, ip: IpLibrary): (c: Option<Chain>)
    ensures c.Some? ==> 0 < |c.value.addresses| <= limit
  {
    if r.xFor.None? || r.xFor.value == "" then None
    else
      var parts := StripAll(Split(r.xFor.value, ','));
      if |parts| > limit || "" in parts then None
      else
        AllSomeIs(PlainAddresses(parts, ip));
        match AllSome(PlainAddresses(parts, ip))
        case None => None
        case Some(addresses) =>
          var proto := if r.xProto.None? then None else Some(Lower(Strip(r.xProto.value)));
          if r.xProto.Some? && (',' in r.xProto.value || (proto != Some("http") && proto != Some("https"))) then None
          else if r.xHost.None? then Some(Chain(addresses, proto, None))
          else if ',' in r.xHost.value || ValidHost(r.xHost.value).None? then None
          else Some(Chain(addresses, proto, ValidHost(r.xHost.value)))
  }

  // ---------------------------------------------------------------- choosing the client

  /** The hop search, right to left. */
  method FindClient(chain: seq<Address>, trusted: Address -> bool) returns (client: Address)
    requires chain != []
    ensures client == ClientOf(chain, trusted)
  {
    client := chain[0];
    var i := |chain|;
    while i > 0
      invariant 0 <= i <= |chain| && client == chain[0]
      invariant forall j :: i <= j < |chain| ==> trusted(chain[j])
    {
      i := i - 1;
      if !trusted(chain[i]) {
        client := chain[i];
        RightmostIsClient(chain, trusted, i);
        return;
      }
    }
    AllTrustedIsFirst(chain, trusted);
  }

  /** Drop trusted hops from the right; what they vouch for is the client. */
  function ClientOf(chain: seq<Address>, trusted: Address -> bool): Address
    requires chain != []
  {
    var last := chain[|chain| - 1];
    if !trusted(last) || |chain| == 1 then last
    else if exists a :: a in chain && !trusted(a) then ClientOf(chain[..|chain| - 1], trusted)
    else chain[0]
  }

  /** The client is the rightmost hop outside the trusted proxies. */
  lemma {:induction false} RightmostIsClient(chain: seq<Address>, trusted: Address -> bool, k: nat)
    requires k < |chain| && !trusted(chain[k])
    requires forall j :: k < j < |chain| ==> trusted(chain[j])
    ensures ClientOf(chain, trusted) == chain[k]
  {
    if k == |chain| - 1 {
    } else {
      var front := chain[..|chain| - 1];
      assert chain[k] in chain;
      RightmostIsClient(front, trusted, k);
    }
  }

  /** If every hop is trusted the client is the leftmost. */
  lemma AllTrustedIsFirst(chain: seq<Address>, trusted: Address -> bool)
    requires chain != [] && forall a :: a in chain ==> trusted(a)
    ensures ClientOf(chain, trusted) == chain[0]
  {
    assert chain[|chain| - 1] in chain;
  }

  lemma {:induction false} RightmostExists(chain: seq<Address>, trusted: Address -> bool) returns (k: nat)
    requires exists a :: a in chain && !trusted(a)
    ensures k < |chain| && !trusted(chain[k]) && forall j :: k < j < |chain| ==> trusted(chain[j])
  {
    if trusted(chain[|chain| - 1]) {
    } else {
      return |chain| - 1;
    }
    assert chain == chain[..|chain| - 1] + [chain[|chain| - 1]];
    k := RightmostExists(chain[..|chain| - 1], trusted);
  }

  /** Hops claimed further to the left never displace an untrusted hop. */
  lemma PrependedHopsAreIgnored(claimed: seq<Address>, chain: seq<Address>, trusted: Address -> bool)
    requires exists a :: a in chain && !trusted(a)
    ensures ClientOf(claimed + chain, trusted) == ClientOf(chain, trusted)
  {
    var k := RightmostExists(chain, trusted);
    RightmostIsClient(chain, trusted, k);
    RightmostIsClient(claimed + chain, trusted, |claimed| + k);
  }

  // ---------------------------------------------------------------- the request

  datatype Request = Request(
    peer: Option<string>,
    scheme: string,
    hostHeader: Option<string>,
    forwarded: Option<string>,
    xFor: Option<string>,
    xProto: Option<string>,
    xHost: Option<string>)

  datatype Context = Context(peer: string, client: string, scheme: string, host: Option<string>, forwarded: bool)

  datatype Resolution = Resolved(context: Context) | BadRequest

  datatype Settings = Settings(trusted: Address -> bool, hopLimit: nat)

  /** request_network_context */
  function Resolve(r: Request, settings: Settings, ip: IpLibrary): Resolution {
    var rawPeer := if r.peer.Some? then r.peer.value else "unknown";
    match ParseAddress(rawPeer, ip)
    case None => Resolved(Context(rawPeer, rawPeer, r.scheme, None, false))
    case Some(peer) =>
      var direct := Context(ip.show(peer), ip.show(peer), r.scheme, r.hostHeader, false);
      if !settings.trusted(peer) then Resolved(direct)
      else if r.forwarded.None? && r.xFor.None? && r.xProto.None? && r.xHost.None? then Resolved(direct)
      else if r.forwarded.Some? && (r.xFor.Some? || r.xProto.Some? || r.xHost.Some?) then BadRequest
      else
        var chain := if r.forwarded.Some? then ForwardedChain(r.forwarded.value, settings.hopLimit, ip)
                     else XForwardedChain(r, settings.hopLimit, ip);
        WithChain(direct, chain, settings, ip)
  }

  function WithChain(direct: Context, chain: Option<Chain>, settings: Settings, ip: IpLibrary): Resolution
    requires chain.Some? ==> chain.value.addresses != []
  {
    match chain
    case None => BadRequest
    case Some(c) =>
      Resolved(Context(direct.peer, ip.show(ClientOf(c.addresses, settings.trusted)),
                       if c.proto.Some? then c.proto.value else direct.scheme,
                       if c.host.Some? then c.host else direct.host,
                       true))
  }

  /** request_network_context with its loops. */
  method ResolveRequest(r: Request, settings: Settings, ip: IpLibrary) returns (resolution: Resolution)
    ensures resolution == Resolve(r, settings, ip)
  {
    var rawPeer := if r.peer.Some? then r.peer.value else "unknown";
    var peer := ParseAddress(rawPeer, ip);
    if peer.None? {
      return Resolved(Context(rawPeer, rawPeer, r.scheme, None, false));
    }
    var direct := Context(ip.show(peer.value), ip.show(peer.value), r.scheme, r.hostHeader, false);
    var xPresent := r.xFor.Some? || r.xProto.Some? || r.xHost.Some?;
    if !settings.trusted(peer.value) || (r.forwarded.None? && !xPresent) {
      return Resolved(direct);
    }
    var chain;
    if r.forwarded.Some? {
      if xPresent {
        return BadRequest;
      }
      chain := ReadForwarded(r.forwarded.value, settings.hopLimit, ip);
    } else {
      chain := XForwardedChain(r, settings.hopLimit, ip);
    }
    if chain.None? {
      return BadRequest;
    }
    var client := FindClient(chain.value.addresses, settings.trusted);
    return Resolved(direct.(client := ip.show(client),
                            scheme := if chain.value.proto.Some? then chain.value.proto.value else direct.scheme,
                            host := if chain.value.host.Some? then chain.value.host else direct.host,
                            forwarded := true));
  }

  /** The chain of whichever kind of header a request carries. */
  function ChainOf(r: Request, settings: Settings, ip: IpLibrary): (c: Option<Chain>)
    ensures c.Some? ==> c.value.addresses != []
  {
    if r.forwarded.Some? then ForwardedChain(r.forwarded.value, settings.hopLimit, ip)
    else XForwardedChain(r, settings.hopLimit, ip)
  }

  predicate XPresent(r: Request) {
    r.xFor.Some? || r.xProto.Some? || r.xHost.Some?
  }

  /** A trusted peer with forwarding headers: refused exactly when both kinds are mixed or the chain is
      malformed; otherwise the client is the rightmost hop outside the trusted proxies, or the leftmost
      when all are trusted. */
  lemma TrustedPeerIsHeard(r: Request, settings: Settings, ip: IpLibrary)
    requires !PeerUntrusted(r, settings, ip) && (r.forwarded.Some? || XPresent(r))
    ensures r.peer.Some? && ParseAddress(r.peer.value, ip).Some?
    ensures Resolve(r, settings, ip).BadRequest? <==> (r.forwarded.Some? && XPresent(r)) || ChainOf(r, settings, ip).None?
    ensures Resolve(r, settings, ip).Resolved? ==>
      var hops, context := ChainOf(r, settings, ip).value.addresses, Resolve(r, settings, ip).context;
      && context.forwarded
      && context.peer == ip.show(ParseAddress(r.peer.value, ip).value)
      && context.scheme == (if ChainOf(r, settings, ip).value.proto.Some? then ChainOf(r, settings, ip).value.proto.value else r.scheme)
      && context.host == (if ChainOf(r, settings, ip).value.host.Some? then ChainOf(r, settings, ip).value.host else r.hostHeader)
      && exists k :: 0 <= k < |hops| && context.client == ip.show(hops[k])
                     && (forall j :: k < j < |hops| ==> settings.trusted(hops[j]))
                     && (!settings.trusted(hops[k]) || (k == 0 && forall j :: 0 <= j < |hops| ==> settings.trusted(hops[j])))
  {
    UnknownIsNoAddress(ip);
    var resolution := Resolve(r, settings, ip);
    if resolution.Resolved? {
      var k := ClientPlace(ChainOf(r, settings, ip).value.addresses, settings.trusted);
    }
  }

  lemma ClientPlace(hops: seq<Address>, trusted: Address -> bool) returns (k: nat)
    requires hops != []
    ensures k < |hops| && ClientOf(hops, trusted) == hops[k]
    ensures forall j :: k < j < |hops| ==> trusted(hops[j])
    ensures !trusted(hops[k]) || (k == 0 && forall j :: 0 <= j < |hops| ==> trusted(hops[j]))
  {
    if exists a :: a in hops && !trusted(a) {
      k := RightmostExists(hops, trusted);
      RightmostIsClient(hops, trusted, k);
    } else {
      k := 0;
      forall j | 0 <= j < |hops| ensures trusted(hops[j]) {
        assert hops[j] in hops;
      }
      AllTrustedIsFirst(hops, trusted);
    }
  }

  /** The peer, as the service sees it, is not one of the trusted proxies. */
  predicate PeerUntrusted(r: Request, settings: Settings, ip: IpLibrary) {
    var peer := ParseAddress(if r.peer.Some? then r.peer.value else "unknown", ip);
    peer.None? || !settings.trusted(peer.value)
  }

  /** A peer that is no trusted proxy, or a trusted one without forwarding headers, is its own client. */
  lemma DirectPeerIsClient(r: Request, settings: Settings, ip: IpLibrary)
    requires r.peer.Some? && ParseAddress(r.peer.value, ip).Some?
    requires settings.trusted(ParseAddress(r.peer.value, ip).value) ==> r.forwarded.None? && !XPresent(r)
    ensures var peer := ip.show(ParseAddress(r.peer.value, ip).value);
            Resolve(r, settings, ip) == Resolved(Context(peer, peer, r.scheme, r.hostHeader, false))
  {
  }

  /** A peer that is no address is taken as it is, without a host; a missing one is called unknown. */
  lemma UnreadablePeerIsClient(r: Request, settings: Settings, ip: IpLibrary)
    requires r.peer.Some? ==> ParseAddress(r.peer.value, ip).None?
    ensures var peer := if r.peer.Some? then r.peer.value else "unknown";
            Resolve(r, settings, ip) == Resolved(Context(peer, peer, r.scheme, None, false))
  {
    UnknownIsNoAddress(ip);
  }

  /** For an untrusted peer the whole context is independent of the forwarding headers. */
  lemma UntrustedPeerIsNotHeard(r: Request, s: Request, settings: Settings, ip: IpLibrary)
    requires PeerUntrusted(r, settings, ip)
    requires s == r.(forwarded := s.forwarded, xFor := s.xFor, xProto := s.xProto, xHost := s.xHost)
    ensures Resolve(s, settings, ip) == Resolve(r, settings, ip)
    ensures Resolve(r, settings, ip).Resolved? && !Resolve(r, settings, ip).context.forwarded
  {
  }

  lemma AllAddressesConcat(a: seq<string>, b: seq<string>, ip: IpLibrary)
    requires AllSome(ElementAddresses(a, ip)).Some? && AllSome(ElementAddresses(b, ip)).Some?
    ensures AllSome(ElementAddresses(a + b, ip))
            == Some(AllSome(ElementAddresses(a, ip)).value + AllSome(ElementAddresses(b, ip)).value)
  {
    MapConcat(a, b, element => ElementAddress(element, ip));
    AllSomeConcat(ElementAddresses(a, ip), ElementAddresses(b, ip));
  }

  lemma AssembleMore(xs: seq<Address>, more: seq<Address>, first: Option<map<string, string>>)
    requires Assemble(Some(xs), first).Some?
    ensures Assemble(Some(more), first) == Some(Assemble(Some(xs), first).value.(addresses := more))
  {
  }

  lemma ElementsConcatenate(a: seq<string>, b: seq<string>, limit: nat, ip: IpLibrary)
    requires a != [] && b != [] && |a| + |b| <= limit
    requires ChainOfElements(a, limit, ip).Some? && ChainOfElements(b, limit, ip).Some?
    ensures ChainOfElements(a + b, limit, ip)
            == Some(ChainOfElements(a, limit, ip).value.(
                 addresses := ChainOfElements(a, limit, ip).value.addresses + ChainOfElements(b, limit, ip).value.addresses))
  {
    var xs, ys := AllSome(ElementAddresses(a, ip)).value, AllSome(ElementAddresses(b, ip)).value;
    AllAddressesConcat(a, b, ip);
    assert (a + b)[0] == a[0];
    AssembleMore(xs, xs + ys, ParseElement(a[0]));
  }

  /** Two well-formed headers joined by a comma are read one after the other. */
  lemma ChainsConcatenate(claimed: string, appended: string, limit: nat, ip: IpLibrary)
    requires ForwardedChain(claimed, limit, ip).Some? && ForwardedChain(appended, limit, ip).Some?
    requires |Split(claimed, ',')| + |Split(appended, ',')| <= limit
    ensures ForwardedChain(claimed + "," + appended, limit, ip)
            == Some(ForwardedChain(claimed, limit, ip).value.(
                 addresses := ForwardedChain(claimed, limit, ip).value.addresses + ForwardedChain(appended, limit, ip).value.addresses))
  {
    var a, b := StripAll(Split(claimed, ',')), StripAll(Split(appended, ','));
    SplitConcat(claimed, appended, ',');
    MapConcat(Split(claimed, ','), Split(appended, ','), Strip);
    ElementsConcatenate(a, b, limit, ip);
  }

  /** A client that sends its own well-formed Forwarded elements, to which the proxies append theirs:
      within the hop limit the resolved client stays what the proxies' part says. */
  lemma SpoofedElementsAreIgnored(r: Request, claimed: string, settings: Settings, ip: IpLibrary)
    requires r.forwarded.Some? && Resolve(r, settings, ip).Resolved? && Resolve(r, settings, ip).context.forwarded
    requires exists a :: a in ForwardedChain(r.forwarded.value, settings.hopLimit, ip).value.addresses && !settings.trusted(a)
    requires ForwardedChain(claimed, settings.hopLimit, ip).Some?
    requires |Split(claimed, ',')| + |Split(r.forwarded.value, ',')| <= settings.hopLimit
    ensures var spoofed := Resolve(r.(forwarded := Some(claimed + "," + r.forwarded.value)), settings, ip);
            spoofed.Resolved? && spoofed.context.forwarded
            && spoofed.context.client == Resolve(r, settings, ip).context.client
            && spoofed.context.peer == Resolve(r, settings, ip).context.peer
  {
    var text := r.forwarded.value;
    ChainsConcatenate(claimed, text, settings.hopLimit, ip);
    PrependedHopsAreIgnored(ForwardedChain(claimed, settings.hopLimit, ip).value.addresses,
                            ForwardedChain(text, settings.hopLimit, ip).value.addresses, settings.trusted);
    HeardForwarded(r, text, settings, ip);
    HeardForwarded(r, claimed + "," + text, settings, ip);
  }

  /** The scheme and the host a chain leads to: its own, or those of the connection. */
  function EffectiveScheme(c: Chain, r: Request): string {
    if c.proto.Some? then c.proto.value else r.scheme
  }

  function EffectiveHost(c: Chain, r: Request): Option<string> {
    if c.host.Some? then c.host else r.hostHeader
  }

  lemma BadFrontIsRefused(a: seq<string>, b: seq<string>, limit: nat, ip: IpLibrary)
    requires a != [] && |a| <= limit && ChainOfElements(a, limit, ip).None?
    ensures ChainOfElements(a + b, limit, ip).None?
  {
    assert (a + b)[0] == a[0];
    if "" in a {
      assert "" in a + b;
    } else if AllSome(ElementAddresses(a, ip)).None? {
      AllSomeIs(ElementAddresses(a, ip));
      var i :| 0 <= i < |a| && ElementAddresses(a, ip)[i].None?;
      assert (a + b)[i] == a[i];
      OneBadElement(a + b, ip, i);
    }
  }

  /** A prefixed header is read if and only if the prefix alone is and the two fit in the hop limit. */
  lemma PrefixIsReadIff(claimed: string, appended: string, limit: nat, ip: IpLibrary)
    requires ForwardedChain(appended, limit, ip).Some?
    ensures ForwardedChain(claimed + "," + appended, limit, ip).Some? <==>
            ForwardedChain(claimed, limit, ip).Some? && |Split(claimed, ',')| + |Split(appended, ',')| <= limit
  {
    var a, b := StripAll(Split(claimed, ',')), StripAll(Split(appended, ','));
    SplitConcat(claimed, appended, ',');
    MapConcat(Split(claimed, ','), Split(appended, ','), Strip);
    if |a| + |b| <= limit {
      if ForwardedChain(claimed, limit, ip).Some? {
        ElementsConcatenate(a, b, limit, ip);
      } else {
        BadFrontIsRefused(a, b, limit, ip);
      }
    }
  }

  /** Prefixed elements, whatever they are, leave the whole context unchanged if and only if they can be
      read, fit in the hop limit, and lead to the same scheme and host as the proxies' part. */
  lemma SpoofedContextIff(r: Request, claimed: string, settings: Settings, ip: IpLibrary)
    requires r.forwarded.Some? && Resolve(r, settings, ip).Resolved? && Resolve(r, settings, ip).context.forwarded
    requires exists a :: a in ForwardedChain(r.forwarded.value, settings.hopLimit, ip).value.addresses && !settings.trusted(a)
    ensures var spoofed := ForwardedChain(claimed, settings.hopLimit, ip);
            var honest := ForwardedChain(r.forwarded.value, settings.hopLimit, ip).value;
            Resolve(r.(forwarded := Some(claimed + "," + r.forwarded.value)), settings, ip) == Resolve(r, settings, ip)
            <==> && spoofed.Some? && |Split(claimed, ',')| + |Split(r.forwarded.value, ',')| <= settings.hopLimit
                 && EffectiveScheme(spoofed.value, r) == EffectiveScheme(honest, r)
                 && EffectiveHost(spoofed.value, r) == EffectiveHost(honest, r)
  {
    var text := r.forwarded.value;
    HeardForwarded(r, text, settings, ip);
    HeardForwarded(r, claimed + "," + text, settings, ip);
    PrefixIsReadIff(claimed, text, settings.hopLimit, ip);
    if ForwardedChain(claimed + "," + text, settings.hopLimit, ip).Some? {
      ChainsConcatenate(claimed, text, settings.hopLimit, ip);
      var spoofed, honest := ForwardedChain(claimed, settings.hopLimit, ip).value, ForwardedChain(text, settings.hopLimit, ip).value;
      PrependedHopsAreIgnored(spoofed.addresses, honest.addresses, settings.trusted);
      SameClientContexts(r, honest, spoofed.(addresses := spoofed.addresses + honest.addresses), settings, ip);
    }
  }

  /** What the service knows without the headers. */
  function Direct(r: Request, ip: IpLibrary): Context
    requires r.peer.Some? && ParseAddress(r.peer.value, ip).Some?
  {
    var peer := ip.show(ParseAddress(r.peer.value, ip).value);
    Context(peer, peer, r.scheme, r.hostHeader, false)
  }

  /** A request whose Forwarded header is heard is resolved by the chain in it, whatever it says. */
  lemma HeardForwarded(r: Request, text: string, settings: Settings, ip: IpLibrary)
    requires r.forwarded.Some? && Resolve(r, settings, ip).Resolved? && Resolve(r, settings, ip).context.forwarded
    ensures r.peer.Some? && ParseAddress(r.peer.value, ip).Some?
    ensures Resolve(r.(forwarded := Some(text)), settings, ip)
            == WithChain(Direct(r, ip), ForwardedChain(text, settings.hopLimit, ip), settings, ip)
  {
    UnknownIsNoAddress(ip);
  }

  lemma UnknownIsNoAddress(ip: IpLibrary)
    ensures ParseAddress("unknown", ip).None?
  {
    assert Lower("unknown") == "unknown";
  }

  lemma SameClientContexts(r: Request, a: Chain, b: Chain, settings: Settings, ip: IpLibrary)
    requires r.peer.Some? && ParseAddress(r.peer.value, ip).Some?
    requires a.addresses != [] && b.addresses != []
    requires ClientOf(a.addresses, settings.trusted) == ClientOf(b.addresses, settings.trusted)
    ensures WithChain(Direct(r, ip), Some(b), settings, ip) == WithChain(Direct(r, ip), Some(a), settings, ip)
            <==> EffectiveScheme(b, r) == EffectiveScheme(a, r) && EffectiveHost(b, r) == EffectiveHost(a, r)
  {
  }

  lemma XChainsConcatenate(r: Request, claimed: string, limit: nat, ip: IpLibrary)
    requires XForwardedChain(r, limit, ip).Some? && XForwardedChain(r.(xFor := Some(claimed)), limit, ip).Some?
    requires |Split(claimed, ',')| + |Split(r.xFor.value, ',')| <= limit
    ensures XForwardedChain(r.(xFor := Some(claimed + "," + r.xFor.value)), limit, ip)
            == Some(XForwardedChain(r, limit, ip).value.(
                 addresses := XForwardedChain(r.(xFor := Some(claimed)), limit, ip).value.addresses
                              + XForwardedChain(r, limit, ip).value.addresses))
  {
    var a, b := StripAll(Split(claimed, ',')), StripAll(Split(r.xFor.value, ','));
    SplitConcat(claimed, r.xFor.value, ',');
    MapConcat(Split(claimed, ','), Split(r.xFor.value, ','), Strip);
    MapConcat(a, b, part => ParseAddress(part, ip));
    AllSomeConcat(PlainAddresses(a, ip), PlainAddresses(b, ip));
  }

  /** Beside the addresses the X chain holds what its own headers say, whatever X-Forwarded-For says. */
  predicate XHeadersOk(r: Request) {
    && (r.xProto.Some? ==> ',' !in r.xProto.value && (var proto := Lower(Strip(r.xProto.value)); proto == "http" || proto == "https"))
    && (r.xHost.Some? ==> ',' !in r.xHost.value && ValidHost(r.xHost.value).Some?)
  }

  lemma XChainShape(r: Request, limit: nat, ip: IpLibrary)
    requires r.xFor.Some? && r.xFor.value != ""
    ensures var parts := StripAll(Split(r.xFor.value, ','));
            XForwardedChain(r, limit, ip)
            == if XHeadersOk(r) && |parts| <= limit && "" !in parts && AllSome(PlainAddresses(parts, ip)).Some?
               then Some(Chain(AllSome(PlainAddresses(parts, ip)).value,
                               if r.xProto.Some? then Some(Lower(Strip(r.xProto.value))) else None,
                               if r.xHost.Some? then ValidHost(r.xHost.value) else None))
               else None
  {
  }

  lemma PlainPrefix(a: seq<string>, b: seq<string>, ip: IpLibrary)
    requires AllSome(PlainAddresses(b, ip)).Some?
    ensures AllSome(PlainAddresses(a + b, ip)).Some? <==> AllSome(PlainAddresses(a, ip)).Some?
  {
    MapConcat(a, b, part => ParseAddress(part, ip));
    var xs, ys := PlainAddresses(a, ip), PlainAddresses(b, ip);
    AllSomeIs(xs);
    AllSomeIs(ys);
    AllSomeIs(xs + ys);
    if AllSome(xs + ys).Some? {
      assert forall i :: 0 <= i < |xs| ==> (xs + ys)[i] == xs[i];
    }
  }

  lemma NothingIsAnEmptyPart()
    ensures "" in StripAll(Split("", ','))
  {
    assert StripAll(Split("", ','))[0] == "";
  }

  /** A prefixed X-Forwarded-For is read if and only if the prefix alone is and the two fit in the hop limit. */
  lemma XPrefixIsReadIff(r: Request, claimed: string, limit: nat, ip: IpLibrary)
    requires XForwardedChain(r, limit, ip).Some?
    ensures XForwardedChain(r.(xFor := Some(claimed + "," + r.xFor.value)), limit, ip).Some? <==>
            XForwardedChain(r.(xFor := Some(claimed)), limit, ip).Some?
            && |Split(claimed, ',')| + |Split(r.xFor.value, ',')| <= limit
  {
    var a, b := StripAll(Split(claimed, ',')), StripAll(Split(r.xFor.value, ','));
    SplitConcat(claimed, r.xFor.value, ',');
    MapConcat(Split(claimed, ','), Split(r.xFor.value, ','), Strip);
    XChainShape(r, limit, ip);
    XChainShape(r.(xFor := Some(claimed + "," + r.xFor.value)), limit, ip);
    PlainPrefix(a, b, ip);
    if claimed == "" {
      NothingIsAnEmptyPart();
    } else {
      XChainShape(r.(xFor := Some(claimed)), limit, ip);
    }
  }

  /** A request whose X-Forwarded headers are heard is resolved by the chain in them, whatever it says. */
  lemma HeardXForwarded(r: Request, text: string, settings: Settings, ip: IpLibrary)
    requires r.forwarded.None? && Resolve(r, settings, ip).Resolved? && Resolve(r, settings, ip).context.forwarded
    ensures r.peer.Some? && ParseAddress(r.peer.value, ip).Some?
    ensures r.xFor.Some? && XForwardedChain(r, settings.hopLimit, ip).Some?
    ensures Resolve(r.(xFor := Some(text)), settings, ip)
            == WithChain(Direct(r, ip), XForwardedChain(r.(xFor := Some(text)), settings.hopLimit, ip), settings, ip)
  {
    UnknownIsNoAddress(ip);
  }

  /** With X-Forwarded-For a prefix leaves the whole context unchanged if and only if it can be read and
      fits in the hop limit: scheme and host have headers of their own. */
  lemma SpoofedHopsIff(r: Request, claimed: string, settings: Settings, ip: IpLibrary)
    requires r.forwarded.None? && Resolve(r, settings, ip).Resolved? && Resolve(r, settings, ip).context.forwarded
    requires exists a :: a in XForwardedChain(r, settings.hopLimit, ip).value.addresses && !settings.trusted(a)
    ensures Resolve(r.(xFor := Some(claimed + "," + r.xFor.value)), settings, ip) == Resolve(r, settings, ip)
            <==> && XForwardedChain(r.(xFor := Some(claimed)), settings.hopLimit, ip).Some?
                 && |Split(claimed, ',')| + |Split(r.xFor.value, ',')| <= settings.hopLimit
  {
    HeardXForwarded(r, claimed + "," + r.xFor.value, settings, ip);
    XPrefixIsReadIff(r, claimed, settings.hopLimit, ip);
    if XForwardedChain(r.(xFor := Some(claimed + "," + r.xFor.value)), settings.hopLimit, ip).Some? {
      SpoofedHopsAreIgnored(r, claimed, settings, ip);
    }
  }

  lemma SpoofedHopsAreIgnored(r: Request, claimed: string, settings: Settings, ip: IpLibrary)
    requires r.forwarded.None? && Resolve(r, settings, ip).Resolved? && Resolve(r, settings, ip).context.forwarded
    requires exists a :: a in XForwardedChain(r, settings.hopLimit, ip).value.addresses && !settings.trusted(a)
    requires XForwardedChain(r.(xFor := Some(claimed)), settings.hopLimit, ip).Some?
    requires |Split(claimed, ',')| + |Split(r.xFor.value, ',')| <= settings.hopLimit
    ensures Resolve(r.(xFor := Some(claimed + "," + r.xFor.value)), settings, ip) == Resolve(r, settings, ip)
  {
    XChainsConcatenate(r, claimed, settings.hopLimit, ip);
    PrependedHopsAreIgnored(XForwardedChain(r.(xFor := Some(claimed)), settings.hopLimit, ip).value.addresses,
                            XForwardedChain(r, settings.hopLimit, ip).value.addresses, settings.trusted);
  }
}
