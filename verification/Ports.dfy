/** Port reconciliation and the conflict gate of backend/app/orchestration/ports.py. */
module Ports {
  import opened Common

  datatype Ip = V4(value: nat) | V6(value: nat, scope: string)

  /** A bind address as text. Canonical is the spelling printed by the address library,
      Spelled any other text for the same address, Other text that is no IP literal.
      Distinct values are distinct strings. */
  datatype AddressText =
    | Canonical(ip: Ip)
    | Spelled(ip: Ip, text: string)
    | Other(text: string)

  const ANY_V4 := V4(0)
  const ANY_V6 := V6(0, "")

  // ---------------------------------------------------------------- address overlap

  function AddressesConflict(first: AddressText, second: AddressText): bool {
    if first.Other? || second.Other? then first == second
    else if first.ip == second.ip then true
    else if first == Canonical(ANY_V6) || second == Canonical(ANY_V6) then true
    else if first == Canonical(ANY_V4) && second.ip.V4? then true
    else if second == Canonical(ANY_V4) && first.ip.V4? then true
    else false
  }

  /** The addresses a socket bound to `bound` may accept traffic for. */
  ghost predicate Covers(bound: Ip, x: Ip) {
    bound == x || bound == ANY_V6 || (bound == ANY_V4 && x.V4?)
  }

  ghost predicate Overlap(a: Ip, b: Ip) {
    exists x :: Covers(a, x) && Covers(b, x)
  }

  lemma OverlapIsCovering(a: Ip, b: Ip)
    ensures Overlap(a, b) <==> Covers(a, b) || Covers(b, a)
  {
    if Covers(a, b) {
      assert Covers(b, b);
    }
    if Covers(b, a) {
      assert Covers(a, a);
    }
  }

  /** On canonical text the test is exactly "the covered address sets intersect". */
  lemma ConflictIffOverlap(a: Ip, b: Ip)
    ensures AddressesConflict(Canonical(a), Canonical(b)) <==> Overlap(a, b)
  {
    OverlapIsCovering(a, b);
  }

  /** Does some wildcard that covers the other, different, address have its canonical spelling? */
  predicate WildcardSpelled(a: AddressText, b: AddressText)
    requires !a.Other? && !b.Other?
  {
    var aWild := a.ip == ANY_V6 || (a.ip == ANY_V4 && b.ip.V4?);
    var bWild := b.ip == ANY_V6 || (b.ip == ANY_V4 && a.ip.V4?);
    a.ip != b.ip && (aWild || bWild) ==> (aWild && a.Canonical?) || (bWild && b.Canonical?)
  }

  /** For any two literals the test is right exactly when a covering wildcard is canonical. */
  lemma ConflictExactness(a: AddressText, b: AddressText)
    requires !a.Other? && !b.Other?
    ensures (AddressesConflict(a, b) <==> Overlap(a.ip, b.ip)) <==> WildcardSpelled(a, b)
  {
    OverlapIsCovering(a.ip, b.ip);
  }

  // ---------------------------------------------------------------- where addresses come from

  /** validate_bind_address of the manifest schema; None is its ValueError. */
  function ValidateBindAddress(text: AddressText): Option<AddressText> {
    if text.Other? then None else Some(Canonical(text.ip))
  }

  /** _normalize_address of port_discovery.py, through which every observation passes. */
  function NormalizeAddress(text: AddressText): AddressText {
    if text == Other("") || text == Other("*") then Canonical(ANY_V4)
    else if text.Other? then text
    else Canonical(text.ip)
  }

  /** No other spelling gets past the two, and an address keeps what it covers. */
  lemma AddressesEnterCanonical(text: AddressText)
    ensures !NormalizeAddress(text).Spelled?
    ensures !text.Other? ==> NormalizeAddress(text) == Canonical(text.ip) && ValidateBindAddress(text) == Some(Canonical(text.ip))
    ensures ValidateBindAddress(text).None? <==> text.Other?
  {
  }

  // ---------------------------------------------------------------- declared and observed ports

  datatype Protocol = Http | Https | Tcp | Udp
  datatype Transport = TcpTransport | UdpTransport

  function TransportProtocol(p: Protocol): Transport {
    if p == Http || p == Https || p == Tcp then TcpTransport else UdpTransport
  }

  datatype PortDefinition = PortDefinition(id: string, protocol: Protocol, hostPort: nat, bindAddress: AddressText)

  datatype ObservedPort = ObservedPort(
    bindAddress: AddressText,
    hostPort: nat,
    transport: Transport,
    pid: Option<int>,
    detail: string,                 // process name, source, service and container fields
    applicationId: Option<string>)

  datatype PortConflict = PortConflict(
    transport: Transport,
    bindAddress: AddressText,
    port: nat,
    pid: Option<int>,
    detail: string,
    applicationId: Option<string>,
    managed: bool)

  datatype PortStatus = Declared | Listening | NotListening | Undeclared | Conflicted | Indeterminate

  datatype PortView = PortView(declared: Option<PortDefinition>, observed: Option<ObservedPort>, status: PortStatus)

  /** The manifest schema rejects two declarations of one host port. */
  predicate UniqueHostPorts(ports: seq<PortDefinition>) {
    forall i, j :: 0 <= i < j < |ports| ==> ports[i].hostPort != ports[j].hostPort
  }

  predicate Matches(o: ObservedPort, d: PortDefinition) {
    o.transport == TransportProtocol(d.protocol) && o.hostPort == d.hostPort && o.bindAddress == d.bindAddress
  }

  /** next((item for item in items if ...), None) */
  function FirstMatch(items: seq<ObservedPort>, d: PortDefinition): (r: Option<ObservedPort>)
    ensures r.Some? ==> r.value in items && Matches(r.value, d)
  {
    if items == [] then None
    else if Matches(items[0], d) then Some(items[0])
    else FirstMatch(items[1..], d)
  }

  lemma {:induction false} FirstMatchFinds(items: seq<ObservedPort>, d: PortDefinition)
    ensures FirstMatch(items, d).Some? <==>
            exists o :: o in items && o.transport == TransportProtocol(d.protocol) && o.hostPort == d.hostPort && o.bindAddress == d.bindAddress
  {
    if items == [] || Matches(items[0], d) {
    } else {
      FirstMatchFinds(items[1..], d);
    }
  }

  /** list.remove: deletes the first element equal to x. */
  function Remove(items: seq<ObservedPort>, x: ObservedPort): (r: seq<ObservedPort>)
    requires x in items
  {
    if items[0] == x then items[1..] else [items[0]] + Remove(items[1..], x)
  }

  lemma {:induction false} RemoveTakesOne(items: seq<ObservedPort>, x: ObservedPort)
    requires x in items
    ensures multiset(Remove(items, x)) + multiset{x} == multiset(items)
  {
    assert items == [items[0]] + items[1..];
    if items[0] == x {
    } else {
      RemoveTakesOne(items[1..], x);
    }
  }

  /** k is where the greedy search of `ports` stops. */
  ghost predicate FirstMatchAt(items: seq<ObservedPort>, d: PortDefinition, k: nat) {
    k < |items| && Matches(items[k], d) && forall i :: 0 <= i < k ==> !Matches(items[i], d)
  }

  lemma MatchAtTail(items: seq<ObservedPort>, d: PortDefinition, k: nat)
    requires k > 0 && FirstMatchAt(items, d, k)
    ensures FirstMatchAt(items[1..], d, k - 1) && items[1..][k - 1] == items[k]
    ensures !Matches(items[0], d) && items[0] != items[k]
  {
    assert forall i :: 0 <= i < k - 1 ==> items[1..][i] == items[i + 1];
  }

  lemma WithoutAt<T>(items: seq<T>, k: nat)
    requires 0 < k < |items|
    ensures [items[0]] + (items[1..][..k - 1] + items[1..][k..]) == items[..k] + items[k + 1..]
  {
  }

  /** Removal by equality deletes the matched position, although equal elements may repeat. */
  lemma {:induction false} RemovalHitsTheMatch(items: seq<ObservedPort>, d: PortDefinition, k: nat)
    requires FirstMatchAt(items, d, k)
    ensures FirstMatch(items, d) == Some(items[k])
    ensures Remove(items, items[k]) == items[..k] + items[k + 1..]
  {
    if k == 0 {
      assert items[..0] + items[1..] == items[1..];
    } else {
      MatchAtTail(items, d, k);
      RemovalHitsTheMatch(items[1..], d, k - 1);
      WithoutAt(items, k);
    }
  }

  /** Removing an item that does not match e leaves the search for e as it was. */
  lemma {:induction false} RemovalKeepsOtherMatches(items: seq<ObservedPort>, x: ObservedPort, e: PortDefinition)
    requires x in items && !Matches(x, e)
    ensures FirstMatch(Remove(items, x), e) == FirstMatch(items, e)
  {
    if items[0] == x {
    } else {
      RemovalKeepsOtherMatches(items[1..], x, e);
    }
  }

  /** The observed ports a list of views shows, in order. */
  function Shown(views: seq<PortView>): (r: seq<ObservedPort>) {
    if views == [] then []
    else
      var front := Shown(views[..|views| - 1]);
      var last := views[|views| - 1];
      if last.observed.Some? then front + [last.observed.value] else front
  }

  lemma ShownSnoc(views: seq<PortView>, v: PortView)
    ensures Shown(views + [v]) == Shown(views) + (if v.observed.Some? then [v.observed.value] else [])
  {
    assert (views + [v])[..|views|] == views;
  }

  /** What `ports` must show for declaration d. The scans are None when discovery failed. */
  ghost predicate DeclaredView(
    v: PortView, d: PortDefinition, observed: seq<ObservedPort>,
    discovered: bool, conflicts: Option<seq<PortConflict>>, running: bool)
  {
    var transport := if d.protocol == Udp then UdpTransport else TcpTransport;
    && v.declared == Some(d)
    && v.observed == FirstMatch(observed, d)
    && (v.observed.Some? <==>
          exists o :: o in observed && o.transport == transport && o.hostPort == d.hostPort && o.bindAddress == d.bindAddress)
    && v.status == (
         if v.observed.Some? then Listening
         else if conflicts.Some? && exists c :: c in conflicts.value && c.transport == transport && c.port == d.hostPort then Conflicted
         else if !discovered || conflicts.None? then Indeterminate
         else if running then NotListening
         else Declared)
  }

  predicate UndeclaredView(v: PortView) {
    v.declared.None? && v.observed.Some? && v.status == Undeclared
  }

  /** The chain of conditions in the loop. */
  method StatusOf(d: PortDefinition, found: bool, discovered: bool, conflictScan: Option<seq<PortConflict>>, running: bool)
    returns (status: PortStatus)
    ensures var transport := if d.protocol == Udp then UdpTransport else TcpTransport;
            status == (
              if found then Listening
              else if conflictScan.Some? && exists c :: c in conflictScan.value && c.transport == transport && c.port == d.hostPort
              then Conflicted
              else if !discovered || conflictScan.None? then Indeterminate
              else if running then NotListening
              else Declared)
  {
    var conflicts := if conflictScan.Some? then conflictScan.value else [];
    if found {
      return Listening;
    } else if exists c :: c in conflicts && c.transport == TransportProtocol(d.protocol) && c.port == d.hostPort {
      return Conflicted;
    } else if !discovered || conflictScan.None? {
      return Indeterminate;
    } else if running {
      return NotListening;
    } else {
      return Declared;
    }
  }

  /** The search, and the removal of what it found. */
  method TakeMatch(d: PortDefinition, remaining: seq<ObservedPort>, ghost rest: seq<PortDefinition>)
    returns (found: Option<ObservedPort>, left: seq<ObservedPort>)
    requires forall e :: e in rest ==> e.hostPort != d.hostPort
    ensures found == FirstMatch(remaining, d)
    ensures multiset(left) + multiset(if found.Some? then [found.value] else []) == multiset(remaining)
    ensures forall e :: e in rest ==> FirstMatch(left, e) == FirstMatch(remaining, e)
  {
    found := FirstMatch(remaining, d);
    left := remaining;
    if found.Some? {
      RemoveTakesOne(remaining, found.value);
      left := Remove(remaining, found.value);
      forall e | e in rest
        ensures FirstMatch(left, e) == FirstMatch(remaining, e)
      {
        RemovalKeepsOtherMatches(remaining, found.value, e);
      }
    }
  }

  /** The body of the loop over declarations: the view, and the observations left for the rest. */
  method ReconcileOne(
    d: PortDefinition, remaining: seq<ObservedPort>, ghost rest: seq<PortDefinition>,
    discovered: bool, conflictScan: Option<seq<PortConflict>>, running: bool)
    returns (view: PortView, left: seq<ObservedPort>)
    requires forall e :: e in rest ==> e.hostPort != d.hostPort
    ensures DeclaredView(view, d, remaining, discovered, conflictScan, running)
    ensures multiset(left) + multiset(Shown([view])) == multiset(remaining)
    ensures forall e :: e in rest ==> FirstMatch(left, e) == FirstMatch(remaining, e)
  {
    var found;
    found, left := TakeMatch(d, remaining, rest);
    var status := StatusOf(d, found.Some?, discovered, conflictScan, running);
    view := PortView(Some(d), found, status);
    ViewHolds(view, d, remaining, discovered, conflictScan, running);
    OneIsShown(view);
  }

  lemma OneIsShown(v: PortView)
    ensures Shown([v]) == if v.observed.Some? then [v.observed.value] else []
  {
    ShownSnoc([], v);
    assert [] + [v] == [v];
  }

  lemma ViewHolds(
    v: PortView, d: PortDefinition, remaining: seq<ObservedPort>,
    discovered: bool, conflicts: Option<seq<PortConflict>>, running: bool)
    requires v.declared == Some(d) && v.observed == FirstMatch(remaining, d)
    requires var transport := if d.protocol == Udp then UdpTransport else TcpTransport;
             v.status == (
               if v.observed.Some? then Listening
               else if conflicts.Some? && exists c :: c in conflicts.value && c.transport == transport && c.port == d.hostPort
               then Conflicted
               else if !discovered || conflicts.None? then Indeterminate
               else if running then NotListening
               else Declared)
    ensures DeclaredView(v, d, remaining, discovered, conflicts, running)
  {
    FirstMatchFinds(remaining, d);
  }

  /** The view depends on the observations only through the search for d. */
  lemma ViewFromSearch(
    v: PortView, d: PortDefinition, remaining: seq<ObservedPort>, observed: seq<ObservedPort>,
    discovered: bool, conflicts: Option<seq<PortConflict>>, running: bool)
    requires FirstMatch(remaining, d) == FirstMatch(observed, d)
    requires DeclaredView(v, d, remaining, discovered, conflicts, running)
    ensures DeclaredView(v, d, observed, discovered, conflicts, running)
  {
    FirstMatchFinds(remaining, d);
    FirstMatchFinds(observed, d);
  }

  lemma ShownJoins(views: seq<PortView>, v: PortView)
    ensures multiset(Shown(views + [v])) == multiset(Shown(views)) + multiset(Shown([v]))
  {
    ShownSnoc(views, v);
    OneIsShown(v);
  }

  /** The loop over the declarations. */
  method ReconcileDeclared(
    declared: seq<PortDefinition>, observed: seq<ObservedPort>,
    discovered: bool, conflictScan: Option<seq<PortConflict>>, running: bool)
    returns (views: seq<PortView>, remaining: seq<ObservedPort>)
    requires UniqueHostPorts(declared)
    ensures |views| == |declared|
    ensures forall i :: 0 <= i < |declared| ==>
      DeclaredView(views[i], declared[i], observed, discovered, conflictScan, running)
    ensures multiset(Shown(views)) + multiset(remaining) == multiset(observed)
  {
    remaining := observed;
    views := [];
    for i := 0 to |declared|
      invariant |views| == i
      invariant multiset(Shown(views)) + multiset(remaining) == multiset(observed)
      invariant forall e :: e in declared[i..] ==> FirstMatch(remaining, e) == FirstMatch(observed, e)
      invariant forall j :: 0 <= j < i ==>
        DeclaredView(views[j], declared[j], observed, discovered, conflictScan, running)
    {
      var d := declared[i];
      ghost var rest := declared[i + 1..];
      assert declared[i..] == [d] + rest;
      var view, left := ReconcileOne(d, remaining, rest, discovered, conflictScan, running);
      ViewFromSearch(view, d, remaining, observed, discovered, conflictScan, running);
      ShownJoins(views, view);
      views := views + [view];
      remaining := left;
    }
  }

  /** PortService.ports: one view per declaration in manifest order, then every observation
      that no declaration took. `running` is whether the stored status is RUNNING or UNHEALTHY. */
  method ReconcilePorts(
    declared: seq<PortDefinition>,
    discovery: Option<seq<ObservedPort>>,
    conflictScan: Option<seq<PortConflict>>,
    running: bool)
    returns (views: seq<PortView>)
    requires UniqueHostPorts(declared)
    ensures var observed := if discovery.Some? then discovery.value else [];
            && |declared| <= |views|
            && (forall i :: 0 <= i < |declared| ==>
                  DeclaredView(views[i], declared[i], observed, discovery.Some?, conflictScan, running))
            && (forall i :: |declared| <= i < |views| ==> UndeclaredView(views[i]))
            // Every observation is shown exactly once.
            && multiset(Shown(views)) == multiset(observed)
  {
    var observed := if discovery.Some? then discovery.value else [];
    var declaredViews, remaining := ReconcileDeclared(declared, observed, discovery.Some?, conflictScan, running);
    views := AppendUndeclared(declaredViews, remaining);
    assert forall i :: 0 <= i < |declared| ==> views[i] == declaredViews[i];
  }

  /** The loop over the observations that no declaration took. */
  method AppendUndeclared(declaredViews: seq<PortView>, remaining: seq<ObservedPort>) returns (views: seq<PortView>)
    ensures declaredViews <= views && |views| == |declaredViews| + |remaining|
    ensures forall j :: |declaredViews| <= j < |views| ==> UndeclaredView(views[j])
    ensures multiset(Shown(views)) == multiset(Shown(declaredViews)) + multiset(remaining)
  {
    views := declaredViews;
    for k := 0 to |remaining|
      invariant |views| == |declaredViews| + k && declaredViews <= views
      invariant forall j :: |declaredViews| <= j < |views| ==> UndeclaredView(views[j])
      invariant multiset(Shown(views)) == multiset(Shown(declaredViews)) + multiset(remaining[..k])
    {
      assert remaining[..k + 1] == remaining[..k] + [remaining[k]];
      var view := PortView(None, Some(remaining[k]), Undeclared);
      ShownSnoc(views, view);
      views := views + [view];
    }
    assert remaining[..|remaining|] == remaining;
  }

  // ---------------------------------------------------------------- the conflict scan

  /** Does this managed observation claim the listener, by process or by endpoint? */
  predicate Claims(item: ObservedPort, listener: ObservedPort) {
    || (listener.pid.Some? && item.pid.Some? && listener.pid == item.pid)
    || (listener.transport == item.transport && listener.hostPort == item.hostPort
        && AddressesConflict(listener.bindAddress, item.bindAddress))
  }

  /** The listener as system_ports attributes it: the first claiming observation wins. */
  function Attributed(listener: ObservedPort, managed: seq<ObservedPort>): (r: ObservedPort)
    ensures (forall item :: item in managed ==> !Claims(item, listener)) ==> r == listener
  {
    if managed == [] then listener
    else if Claims(managed[0], listener) then listener.(applicationId := managed[0].applicationId)
    else Attributed(listener, managed[1..])
  }

  /** A listener blocks a declaration unless it is attributed to the application itself. */
  predicate Blocks(listener: ObservedPort, d: PortDefinition, app: string) {
    && listener.transport == TransportProtocol(d.protocol)
    && listener.hostPort == d.hostPort
    && AddressesConflict(d.bindAddress, listener.bindAddress)
    && listener.applicationId != Some(app)
  }

  function ConflictOf(listener: ObservedPort): PortConflict {
    PortConflict(listener.transport, listener.bindAddress, listener.hostPort, listener.pid,
                 listener.detail, listener.applicationId, listener.applicationId.Some?)
  }

  /** The scan after attribution. */
  function AttributedScan(listeners: seq<ObservedPort>, managed: seq<ObservedPort>): (r: seq<ObservedPort>) {
    seq(|listeners|, i requires 0 <= i < |listeners| => Attributed(listeners[i], managed))
  }

  /** Conflicts of one declaration, in listener order. */
  function ConflictsOfPort(d: PortDefinition, scan: seq<ObservedPort>, app: string): seq<PortConflict> {
    if scan == [] then []
    else
      var front, last := ConflictsOfPort(d, scan[..|scan| - 1], app), scan[|scan| - 1];
      if Blocks(last, d, app) then front + [ConflictOf(last)] else front
  }

  /** Conflicts of every declaration, in manifest order. */
  function ConflictsInScan(app: string, declared: seq<PortDefinition>, scan: seq<ObservedPort>): seq<PortConflict> {
    if declared == [] then []
    else
      ConflictsInScan(app, declared[..|declared| - 1], scan)
      + ConflictsOfPort(declared[|declared| - 1], scan, app)
  }

  /** PortService.conflicts as a value. */
  function Conflicts(
    app: string, declared: seq<PortDefinition>, listeners: seq<ObservedPort>, managed: seq<ObservedPort>)
    : seq<PortConflict>
  {
    ConflictsInScan(app, declared, AttributedScan(listeners, managed))
  }

  /** The places of the listeners that block d. */
  function Blocking(d: PortDefinition, scan: seq<ObservedPort>, app: string): set<int> {
    set i | 0 <= i < |scan| && Blocks(scan[i], d, app)
  }

  lemma BlockingSnoc(d: PortDefinition, front: seq<ObservedPort>, last: ObservedPort, app: string)
    ensures Blocking(d, front + [last], app)
            == if Blocks(last, d, app) then Blocking(d, front, app) + {|front|} else Blocking(d, front, app)
  {
  }

  /** Each of them is listed once. */
  lemma {:induction false} ConflictsAreCounted(d: PortDefinition, scan: seq<ObservedPort>, app: string)
    ensures |ConflictsOfPort(d, scan, app)| == |Blocking(d, scan, app)|
  {
    if scan == [] {
    } else {
      var front, last := scan[..|scan| - 1], scan[|scan| - 1];
      ConflictsAreCounted(d, front, app);
      BlockingSnoc(d, front, last, app);
      assert scan == front + [last];
    }
  }

  /** How many pairs of a declaration and a listener that blocks it there are. */
  function PairCount(app: string, declared: seq<PortDefinition>, scan: seq<ObservedPort>): nat {
    if declared == [] then 0
    else PairCount(app, declared[..|declared| - 1], scan) + |Blocking(declared[|declared| - 1], scan, app)|
  }

  /** The whole list has one entry for each such pair. */
  lemma {:induction false} PairsAreCounted(app: string, declared: seq<PortDefinition>, scan: seq<ObservedPort>)
    ensures |ConflictsInScan(app, declared, scan)| == PairCount(app, declared, scan)
  {
    if declared == [] {
    } else {
      PairsAreCounted(app, declared[..|declared| - 1], scan);
      ConflictsAreCounted(declared[|declared| - 1], scan, app);
    }
  }

  ghost predicate BlockedBy(c: PortConflict, app: string, declared: seq<PortDefinition>, scan: seq<ObservedPort>) {
    exists d, l :: d in declared && l in scan && Blocks(l, d, app)
      && c == PortConflict(l.transport, l.bindAddress, l.hostPort, l.pid, l.detail, l.applicationId, l.applicationId.Some?)
  }

  lemma {:induction false} ConflictsOfPortExact(d: PortDefinition, scan: seq<ObservedPort>, app: string, c: PortConflict)
    ensures c in ConflictsOfPort(d, scan, app) <==> exists l :: l in scan && Blocks(l, d, app) && c == ConflictOf(l)
  {
    if scan == [] {
    } else {
      var front, last := scan[..|scan| - 1], scan[|scan| - 1];
      ConflictsOfPortExact(d, front, app, c);
      assert scan == front + [last];
    }
  }

  /** The list holds exactly the blocking pairs of a declaration and an attributed listener. */
  lemma {:induction false} ConflictsAreExact(app: string, declared: seq<PortDefinition>, scan: seq<ObservedPort>, c: PortConflict)
    ensures c in ConflictsInScan(app, declared, scan) <==> BlockedBy(c, app, declared, scan)
  {
    if declared == [] {
    } else {
      var front, last := declared[..|declared| - 1], declared[|declared| - 1];
      ConflictsAreExact(app, front, scan, c);
      ConflictsOfPortExact(last, scan, app, c);
      assert declared == front + [last];
      if BlockedBy(c, app, declared, scan) {
        var d, l :| d in declared && l in scan && Blocks(l, d, app) && c == ConflictOf(l);
        assert d in front || d == last;
      }
    }
  }

  /** The gate opens exactly when no attributed listener blocks any declaration. */
  lemma GateOpensIffNothingBlocks(
    app: string, declared: seq<PortDefinition>, listeners: seq<ObservedPort>, managed: seq<ObservedPort>)
    ensures Conflicts(app, declared, listeners, managed) == [] <==>
            forall d, l :: d in declared && l in AttributedScan(listeners, managed) ==> !Blocks(l, d, app)
  {
    var scan := AttributedScan(listeners, managed);
    var found := Conflicts(app, declared, listeners, managed);
    if found != [] {
      ConflictsAreExact(app, declared, scan, found[0]);
    }
    if d, l :| d in declared && l in scan && Blocks(l, d, app) {
      ConflictsAreExact(app, declared, scan, ConflictOf(l));
    }
  }

  function NormalizeObserved(o: ObservedPort): ObservedPort {
    o.(bindAddress := NormalizeAddress(o.bindAddress))
  }

  predicate SameSocket(l: ObservedPort, transport: Transport, port: nat) {
    l.transport == transport && l.hostPort == port
  }

  /** A declaration as the schema returns it. */
  predicate Validated(d: PortDefinition) {
    d.bindAddress.Canonical?
  }

  /** A listener as a scan reports it covers an address in common with the declaration. */
  ghost predicate Meets(d: PortDefinition, l: ObservedPort)
    requires Validated(d)
  {
    l.bindAddress.Canonical? && Overlap(d.bindAddress.ip, l.bindAddress.ip)
  }

  /** On what the code can be given, blocking needs no condition on spelling. */
  lemma BlocksIffMeets(d: PortDefinition, raw: ObservedPort, managed: seq<ObservedPort>, app: string)
    requires Validated(d)
    ensures var l := Attributed(NormalizeObserved(raw), managed);
            Blocks(l, d, app)
            <==> SameSocket(l, TransportProtocol(d.protocol), d.hostPort) && Meets(d, l) && l.applicationId != Some(app)
  {
    AttributionKeepsSocket(NormalizeObserved(raw), managed);
    AddressesEnterCanonical(raw.bindAddress);
    var l := Attributed(NormalizeObserved(raw), managed);
    if l.bindAddress.Canonical? {
      ConflictIffOverlap(d.bindAddress.ip, l.bindAddress.ip);
    }
  }

  lemma {:induction false} AttributionKeepsSocket(listener: ObservedPort, managed: seq<ObservedPort>)
    ensures Attributed(listener, managed).(applicationId := listener.applicationId) == listener
  {
    if managed == [] || Claims(managed[0], listener) {
    } else {
      AttributionKeepsSocket(listener, managed[1..]);
    }
  }

  /** k is the first managed observation that claims the listener. */
  ghost predicate FirstClaim(listener: ObservedPort, managed: seq<ObservedPort>, k: int) {
    0 <= k < |managed| && Claims(managed[k], listener) && forall i :: 0 <= i < k ==> !Claims(managed[i], listener)
  }

  /** The owner is the one recorded on the first claiming observation; a listener no one claims keeps its own. */
  lemma {:induction false} OwnerIsFirstClaimer(listener: ObservedPort, managed: seq<ObservedPort>)
    ensures forall k :: FirstClaim(listener, managed, k) ==>
      Attributed(listener, managed).applicationId == managed[k].applicationId
    ensures (forall i :: 0 <= i < |managed| ==> !Claims(managed[i], listener)) ==> Attributed(listener, managed) == listener
  {
    if managed == [] {
    } else {
      OwnerIsFirstClaimer(listener, managed[1..]);
      assert forall i :: 0 < i < |managed| ==> managed[i] == managed[1..][i - 1];
      forall k | FirstClaim(listener, managed, k)
        ensures Attributed(listener, managed).applicationId == managed[k].applicationId
      {
        if k > 0 {
          assert !Claims(managed[0], listener);
          assert FirstClaim(listener, managed[1..], k - 1);
        }
      }
    }
  }

  /** A listener whose first claimer belongs to the application itself never blocks it; any other one blocks it
      exactly when socket and addresses meet. */
  lemma OwnListenerNeverBlocks(d: PortDefinition, raw: ObservedPort, managed: seq<ObservedPort>, app: string, k: int)
    requires Validated(d) && FirstClaim(NormalizeObserved(raw), managed, k)
    ensures var blocks := Blocks(Attributed(NormalizeObserved(raw), managed), d, app);
            if managed[k].applicationId == Some(app) then !blocks
            else blocks <==> && SameSocket(raw, if d.protocol == Udp then UdpTransport else TcpTransport, d.hostPort)
                             && Meets(d, NormalizeObserved(raw))
  {
    OwnerIsFirstClaimer(NormalizeObserved(raw), managed);
    AttributionKeepsSocket(NormalizeObserved(raw), managed);
    BlocksIffMeets(d, raw, managed, app);
  }

  /** A listener no managed observation claims blocks exactly when socket and addresses meet, unless it came
      with the application's own name. */
  lemma UnclaimedListenerBlocks(d: PortDefinition, raw: ObservedPort, managed: seq<ObservedPort>, app: string)
    requires Validated(d) && forall i :: 0 <= i < |managed| ==> !Claims(managed[i], NormalizeObserved(raw))
    ensures Blocks(Attributed(NormalizeObserved(raw), managed), d, app) <==>
            && SameSocket(raw, if d.protocol == Udp then UdpTransport else TcpTransport, d.hostPort)
            && Meets(d, NormalizeObserved(raw)) && raw.applicationId != Some(app)
  {
    OwnerIsFirstClaimer(NormalizeObserved(raw), managed);
    BlocksIffMeets(d, raw, managed, app);
  }

  /** The gate on everything the code can be given: it opens exactly when no unowned or foreign listener
      of a declared transport and port covers an address in common with the declaration. */
  lemma GateOpensIffNoOverlap(
    app: string, declared: seq<PortDefinition>, listeners: seq<ObservedPort>, managed: seq<ObservedPort>)
    requires forall d :: d in declared ==> Validated(d)
    ensures var scan := AttributedScan(Map(listeners, NormalizeObserved), Map(managed, NormalizeObserved));
            Conflicts(app, declared, Map(listeners, NormalizeObserved), Map(managed, NormalizeObserved)) == [] <==>
            forall d, l :: d in declared && l in scan ==>
              !(&& SameSocket(l, if d.protocol == Udp then UdpTransport else TcpTransport, d.hostPort)
                && Meets(d, l) && l.applicationId != Some(app))
  {
    var seen, known := Map(listeners, NormalizeObserved), Map(managed, NormalizeObserved);
    GateOpensIffNothingBlocks(app, declared, seen, known);
    var scan := AttributedScan(seen, known);
    forall d, l | d in declared && l in scan
      ensures Blocks(l, d, app)
              <==> SameSocket(l, TransportProtocol(d.protocol), d.hostPort) && Meets(d, l) && l.applicationId != Some(app)
    {
      var i :| 0 <= i < |scan| && scan[i] == l;
      BlocksIffMeets(d, listeners[i], known, app);
    }
  }

  /** A listener is claimed by process, or by transport, port and a common address. */
  lemma ClaimsIffOverlap(item: ObservedPort, listener: ObservedPort)
    requires !item.bindAddress.Other? && !listener.bindAddress.Other?
    ensures Claims(NormalizeObserved(item), NormalizeObserved(listener)) <==>
            || (listener.pid.Some? && listener.pid == item.pid)
            || (SameSocket(listener, item.transport, item.hostPort) && Overlap(listener.bindAddress.ip, item.bindAddress.ip))
  {
    ConflictIffOverlap(listener.bindAddress.ip, item.bindAddress.ip);
  }

  /** system_ports: the owner found first is written onto each listener. */
  method SystemPorts(listeners: seq<ObservedPort>, managed: seq<ObservedPort>) returns (ports: seq<ObservedPort>)
    ensures |ports| == |listeners|
    ensures forall i :: 0 <= i < |ports| ==> ports[i] == Attributed(listeners[i], managed)
    // Only the owner is written: that of the first managed observation that claims the listener.
    ensures forall i :: 0 <= i < |ports| ==> ports[i] == listeners[i].(applicationId := ports[i].applicationId)
    ensures forall i, k :: 0 <= i < |ports| && FirstClaim(listeners[i], managed, k) ==>
      ports[i].applicationId == managed[k].applicationId
    ensures forall i :: 0 <= i < |ports| && (forall k :: 0 <= k < |managed| ==> !Claims(managed[k], listeners[i])) ==>
      ports[i] == listeners[i]
  {
    forall i | 0 <= i < |listeners|
      ensures Attributed(listeners[i], managed) == listeners[i].(applicationId := Attributed(listeners[i], managed).applicationId)
      ensures forall k :: FirstClaim(listeners[i], managed, k) ==>
        Attributed(listeners[i], managed).applicationId == managed[k].applicationId
      ensures (forall k :: 0 <= k < |managed| ==> !Claims(managed[k], listeners[i])) ==>
        Attributed(listeners[i], managed) == listeners[i]
    {
      OwnerIsFirstClaimer(listeners[i], managed);
      AttributionKeepsSocket(listeners[i], managed);
    }
    ports := listeners;
    for n := 0 to |listeners|
      invariant |ports| == |listeners|
      invariant forall i :: 0 <= i < n ==> ports[i] == Attributed(listeners[i], managed)
      invariant forall i :: n <= i < |ports| ==> ports[i] == listeners[i]
    {
      var k := 0;
      while k < |managed| && !Claims(managed[k], ports[n])
        invariant 0 <= k <= |managed|
        invariant Attributed(ports[n], managed[k..]) == Attributed(ports[n], managed)
      {
        assert managed[k..][1..] == managed[k + 1..];
        k := k + 1;
      }
      if k < |managed| {
        ports := ports[n := ports[n].(applicationId := managed[k].applicationId)];
      }
    }
  }

  /** The inner loop of PortService.conflicts, with its `continue`s. */
  method FindConflictsOfPort(d: PortDefinition, scan: seq<ObservedPort>, app: string) returns (conflicts: seq<PortConflict>)
    ensures conflicts == ConflictsOfPort(d, scan, app)
  {
    conflicts := [];
    for k := 0 to |scan|
      invariant conflicts == ConflictsOfPort(d, scan[..k], app)
    {
      assert scan[..k + 1][..k] == scan[..k];
      var listener := scan[k];
      if listener.transport != TransportProtocol(d.protocol) || listener.hostPort != d.hostPort {
        continue;
      }
      if !AddressesConflict(d.bindAddress, listener.bindAddress) {
        continue;
      }
      if listener.applicationId == Some(app) {
        continue;
      }
      conflicts := conflicts + [ConflictOf(listener)];
    }
    assert scan[..|scan|] == scan;
  }

  /** PortService.conflicts as the source runs it. */
  method FindConflicts(
    app: string, declared: seq<PortDefinition>, listeners: seq<ObservedPort>, managed: seq<ObservedPort>)
    returns (conflicts: seq<PortConflict>)
    ensures conflicts == Conflicts(app, declared, listeners, managed)
  {
    if declared == [] {
      return [];
    }
    var scan := SystemPorts(listeners, managed);
    assert scan == AttributedScan(listeners, managed);
    conflicts := [];
    for n := 0 to |declared|
      invariant conflicts == ConflictsInScan(app, declared[..n], scan)
    {
      var found := FindConflictsOfPort(declared[n], scan, app);
      assert declared[..n + 1][..n] == declared[..n];
      conflicts := conflicts + found;
    }
    assert declared[..|declared|] == declared;
  }
}
