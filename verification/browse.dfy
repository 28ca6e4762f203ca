/**
 Browsing: the service browser's callback, the resolvers' callback, the browser
 teardown, and `startBrowser` / `stopBrowser` / `browserExists`. A resolver is
 created for a newly seen instance and kept until the instance is removed by the
 browser or the browser is torn down; a resolved instance is stored and reported
 as added the first time and as updated afterwards.
 */
module Browse {
  import opened Base
  import opened Model
  import KeyOrder
  import Txt

  /** `AvahiBrowserEvent`. */
  datatype BrowserEvent = New | Remove | Failure | AllForNow | CacheExhausted

  /** `AvahiResolverEvent`. */
  datatype ResolverEvent = Found | ResolveFailure

  /** `QAbstractSocket::NetworkLayerProtocol`, the application's protocol filter. */
  datatype NetworkLayerProtocol = IPv4Protocol | IPv6Protocol | AnyIPProtocol | UnknownProtocol

  /** One `serviceRemoved` per key of `ks`, carrying the stored record, in the order of `ks`. */
  function Removals(services: map<string, Service>, ks: seq<string>): (evs: seq<Event>)
    requires forall i :: 0 <= i < |ks| ==> ks[i] in services
    decreases |ks|
  {
    if |ks| == 0 then [] else [ServiceRemoved(services[ks[0]])] + Removals(services, ks[1..])
  }

  /**
   `browserCleanUp`: without a browser nothing happens; otherwise the browser is
   released, every stored service is reported removed (in map key order), and both
   maps are emptied.
   */
  function CleanUp(s: State): (r: Step)
    ensures s.browser.None? ==> r == Step(s, [])
    ensures s.browser.Some? ==>
              r.state == s.(browser := None, services := map[], resolvers := map[])
    ensures s.browser.Some? ==> |r.events| == |s.services|
    ensures forall i :: 0 <= i < |r.events| ==>
              r.events[i].ServiceRemoved? && r.events[i].service in s.services.Values
  {
    if s.browser.None? then Step(s, [])
    else
      var ks := KeyOrder.Ascending(s.services.Keys);
      var evs := Removals(s.services, ks);
      RemovalsShape(s.services, ks);
      Step(s.(browser := None, services := map[], resolvers := map[]), evs)
  }

  lemma {:induction false} RemovalsShape(services: map<string, Service>, ks: seq<string>)
    requires forall i :: 0 <= i < |ks| ==> ks[i] in services
    ensures |Removals(services, ks)| == |ks|
    ensures forall i :: 0 <= i < |ks| ==> Removals(services, ks)[i] == ServiceRemoved(services[ks[i]])
    decreases |ks|
  {
    if |ks| > 0 {
      RemovalsShape(services, ks[1..]);
    }
  }

  /** Tearing down reports every stored service: each key's record is the subject of a removal event. */
  lemma CleanUpRemovesEach(s: State, k: string)
    requires s.browser.Some? && k in s.services
    ensures exists i :: 0 <= i < |CleanUp(s).events| &&
              CleanUp(s).events[i] == ServiceRemoved(s.services[k])
  {
    var ks := KeyOrder.Ascending(s.services.Keys);
    RemovalsShape(s.services, ks);
    assert CleanUp(s).events == Removals(s.services, ks);
    assert k in s.services.Keys;
    var i :| 0 <= i < |ks| && ks[i] == k;
    assert CleanUp(s).events[i] == ServiceRemoved(s.services[k]);
  }

  /** Tearing down reports each stored service only once: no two removals concern one key. */
  lemma CleanUpRemovesOnce(s: State)
    requires Wf(s) && s.browser.Some?
    ensures forall i, j :: 0 <= i < j < |CleanUp(s).events| ==>
              KeyOf(CleanUp(s).events[i].service) != KeyOf(CleanUp(s).events[j].service)
  {
    var ks := KeyOrder.Ascending(s.services.Keys);
    RemovalsShape(s.services, ks);
    var evs := CleanUp(s).events;
    assert evs == Removals(s.services, ks);
    forall i | 0 <= i < |evs|
      ensures KeyOf(evs[i].service) == ks[i]
    {
      assert evs[i] == ServiceRemoved(s.services[ks[i]]);
    }
  }

  /** An observer that knew every stored key is left knowing none after the teardown. */
  lemma CleanUpReplay(s: State)
    requires Wf(s) && s.browser.Some?
    ensures Replay(s.services.Keys, CleanUp(s).events) == Some({})
  {
    var ks := KeyOrder.Ascending(s.services.Keys);
    assert CleanUp(s).events == Removals(s.services, ks);
    ReplayRemovals(s, ks, s.services.Keys);
  }

  lemma {:induction false} ReplayRemovals(s: State, ks: seq<string>, known: set<string>)
    requires Wf(s)
    requires forall i :: 0 <= i < |ks| ==> ks[i] in s.services
    requires forall i, j :: 0 <= i < j < |ks| ==> ks[i] != ks[j]
    requires forall i :: 0 <= i < |ks| ==> ks[i] in known
    requires forall k :: k in known ==> k in ks
    ensures Replay(known, Removals(s.services, ks)) == Some({})
    decreases |ks|
  {
    if |ks| == 0 {
      assert known == {};
    } else {
      var k := ks[0];
      assert KeyOf(s.services[k]) == k;
      var rest := ks[1..];
      forall k' | k' in known - {k}
        ensures k' in rest
      {
        var i :| 0 <= i < |ks| && ks[i] == k';
        assert i != 0;
        assert rest[i - 1] == k';
      }
      forall i | 0 <= i < |rest|
        ensures rest[i] in known - {k}
      {
        assert rest[i] == ks[i + 1];
      }
      ReplayRemovals(s, rest, known - {k});
    }
  }

  /** AVAHI_BROWSER_NEW: a resolver is started for the key only if none is there yet. */
  function BrowseNew(s: State, name: string, interface: int, resolver: Handle): (r: Step)
    ensures r.events == []
    ensures Key(name, interface) in r.state.resolvers
    ensures Key(name, interface) in s.resolvers ==> r.state == s
    ensures Key(name, interface) !in s.resolvers ==>
              r.state.resolvers[Key(name, interface)] == resolver
    ensures forall k :: k != Key(name, interface) && k in s.resolvers ==>
              k in r.state.resolvers && r.state.resolvers[k] == s.resolvers[k]
    ensures r.state.resolvers.Keys == s.resolvers.Keys + {Key(name, interface)}
    ensures r.state.(resolvers := s.resolvers) == s
  {
    var key := Key(name, interface);
    if key in s.resolvers then Step(s, [])
    else Step(s.(resolvers := s.resolvers[key := resolver]), [])
  }

  /**
   AVAHI_BROWSER_REMOVE: nothing happens unless a resolver exists for the key; then
   the resolver is released and, if a service is stored, it is removed and reported.
   */
  function BrowseRemove(s: State, name: string, interface: int): (r: Step)
    ensures Key(name, interface) !in s.resolvers ==> r == Step(s, [])
    ensures Key(name, interface) in s.resolvers ==>
              && r.state.resolvers == s.resolvers - {Key(name, interface)}
              && r.state.services == s.services - {Key(name, interface)}
              && r.state.(resolvers := s.resolvers, services := s.services) == s
    ensures Key(name, interface) in s.resolvers && Key(name, interface) in s.services ==>
              r.events == [ServiceRemoved(s.services[Key(name, interface)])]
    ensures Key(name, interface) !in s.services ==> r.events == []
  {
    var key := Key(name, interface);
    if key !in s.resolvers then Step(s, [])
    else
      var s' := s.(resolvers := s.resolvers - {key});
      if key !in s.services then Step(s', [])
      else Step(s'.(services := s.services - {key}), [ServiceRemoved(s.services[key])])
  }

  /** AVAHI_BROWSER_FAILURE: the teardown of `CleanUp`, then `browserFailed`. */
  function BrowseFailure(s: State): (r: Step)
    ensures r.state.browser.None?
    ensures r.state.services == map[] || s.browser.None?
    ensures |r.events| >= 1 && r.events[|r.events| - 1] == Error(BrowserFailed)
    ensures r.events[..|r.events| - 1] == CleanUp(s).events
    ensures r.state == CleanUp(s).state
  {
    var c := CleanUp(s);
    Step(c.state, c.events + [Error(BrowserFailed)])
  }

  /** The service browser's callback, dispatching on the event kind. */
  function BrowseCallback(s: State, event: BrowserEvent, name: string, interface: int, resolver: Handle): (r: Step)
    ensures event.AllForNow? || event.CacheExhausted? ==> r == Step(s, [])
    ensures !event.Failure? ==> r.state.browser == s.browser
    ensures event.New? || event.Remove? ==> r.state.(resolvers := s.resolvers, services := s.services) == s
  {
    match event
    case New => BrowseNew(s, name, interface, resolver)
    case Remove => BrowseRemove(s, name, interface)
    case Failure => BrowseFailure(s)
    case AllForNow => Step(s, [])
    case CacheExhausted => Step(s, [])
  }

  /** The address fields after a FOUND result: only the resolved family's field changes. */
  function WithAddress(svc: Service, protocol: Protocol, address: HostAddress): (r: Service)
    ensures r.(ip := svc.ip, ipv6 := svc.ipv6) == svc
    ensures protocol.Inet? ==> r.ip == Some(address) && r.ipv6 == svc.ipv6
    ensures protocol.Inet6? ==> r.ipv6 == Some(address) && r.ip == svc.ip
    ensures protocol.Unspec? ==> r == svc
  {
    match protocol
    case Inet6 => svc.(ipv6 := Some(address))
    case Inet => svc.(ip := Some(address))
    case Unspec => svc
  }

  /**
   AVAHI_RESOLVER_FOUND: the record under the key (a fresh one if absent) takes the
   event's fields and TXT map, and the address of the resolved family; it is reported
   as added if the key was absent and as updated otherwise.
   */
  function ResolveFound(s: State, name: string, serviceType: string, domain: string, host: string,
                        interface: int, protocol: Protocol, address: HostAddress, port: Port,
                        txt: seq<string>): (r: Step)
    ensures Key(name, interface) in r.state.services
    ensures var svc := r.state.services[Key(name, interface)];
      && svc.name == name && svc.serviceType == serviceType && svc.domain == domain
      && svc.host == host && svc.interfaceIndex == interface && svc.port == port
      && svc.txt == Txt.ParseTxt(txt)
    ensures var svc := r.state.services[Key(name, interface)];
      var before := if Key(name, interface) in s.services then s.services[Key(name, interface)].ip else None;
      var before6 := if Key(name, interface) in s.services then s.services[Key(name, interface)].ipv6 else None;
      && svc.ip == (if protocol.Inet? then Some(address) else before)
      && svc.ipv6 == (if protocol.Inet6? then Some(address) else before6)
    ensures r.state.services - {Key(name, interface)} == s.services - {Key(name, interface)}
    ensures r.state.(services := s.services) == s
    ensures |r.events| == 1
    ensures r.events[0].ServiceAdded? <==> Key(name, interface) !in s.services
    ensures r.events[0].ServiceUpdated? <==> Key(name, interface) in s.services
    ensures r.events[0].service == r.state.services[Key(name, interface)]
  {
    var key := Key(name, interface);
    var old_ := if key in s.services then s.services[key]
                else Service("", "", "", "", 0, 0, map[], None, None);
    var svc := WithAddress(old_.(name := name, serviceType := serviceType, domain := domain,
                                 host := host, interfaceIndex := interface, port := port,
                                 txt := Txt.ParseTxt(txt)), protocol, address);
    var s' := s.(services := s.services[key := svc]);
    if key in s.services then Step(s', [ServiceUpdated(svc)]) else Step(s', [ServiceAdded(svc)])
  }

  /** Any other resolver result: a stored service is removed and reported; the resolver stays. */
  function ResolveFailed(s: State, name: string, interface: int): (r: Step)
    ensures r.state.resolvers == s.resolvers
    ensures Key(name, interface) !in s.services ==> r == Step(s, [])
    ensures Key(name, interface) in s.services ==>
              && r.state == s.(services := s.services - {Key(name, interface)})
              && r.events == [ServiceRemoved(s.services[Key(name, interface)])]
  {
    var key := Key(name, interface);
    if key in s.services then
      Step(s.(services := s.services - {key}), [ServiceRemoved(s.services[key])])
    else Step(s, [])
  }

  /** A resolver's callback, dispatching on the result. The resolvers map is never touched. */
  function ResolveCallback(s: State, event: ResolverEvent, name: string, serviceType: string,
                           domain: string, host: string, interface: int, protocol: Protocol,
                           address: HostAddress, port: Port, txt: seq<string>): (r: Step)
    ensures r.state.resolvers == s.resolvers
    ensures r.state.browser == s.browser && r.state.group == s.group
    ensures |r.events| <= 1
  {
    match event
    case Found => ResolveFound(s, name, serviceType, domain, host, interface, protocol, address, port, txt)
    case ResolveFailure => ResolveFailed(s, name, interface)
  }

  /**
   The Avahi protocol `startBrowser` opens its browser for: IPv4 and IPv6 map to
   their own protocols, "any" to AVAHI_PROTO_UNSPEC, and every other filter falls
   back to IPv4.
   */
  function AvahiProtocolFor(p: NetworkLayerProtocol): (r: Protocol)
    ensures r == Inet6 <==> p.IPv6Protocol?
    ensures r == Unspec <==> p.AnyIPProtocol?
    ensures r == Inet <==> p.IPv4Protocol? || p.UnknownProtocol?
  {
    match p
    case IPv4Protocol => Inet
    case IPv6Protocol => Inet6
    case AnyIPProtocol => Unspec
    case UnknownProtocol => Inet
  }

  /**
   `startBrowser`: an already running browser is reported as `browserFailed` but is
   still replaced by the newly opened one, for the Avahi protocol of the filter; a
   browser Avahi could not open (`created` is None) is reported as `browserFailed`
   too, and leaves no browser. Maps are left alone.
   */
  function StartBrowser(s: State, protocol: NetworkLayerProtocol, created: Option<Handle>): (r: Step)
    ensures BrowserExists(r.state) <==> created.Some?
    ensures created.Some? ==> r.state.browser == Some(Browser(created.value, AvahiProtocolFor(protocol)))
    ensures r.state.(browser := s.browser) == s
    ensures forall i :: 0 <= i < |r.events| ==> r.events[i] == Error(BrowserFailed)
    ensures |r.events| == (if BrowserExists(s) then 1 else 0) + (if created.None? then 1 else 0)
  {
    var first := if s.browser.Some? then [Error(BrowserFailed)] else [];
    if created.None? then Step(s.(browser := None), first + [Error(BrowserFailed)])
    else Step(s.(browser := Some(Browser(created.value, AvahiProtocolFor(protocol)))), first)
  }

  /**
   `stopBrowser`: the teardown of `CleanUp`, without an error. Afterwards no browser
   runs; a running one takes both maps with it and every stored service is reported
   removed.
   */
  function StopBrowser(s: State): (r: Step)
    ensures r == CleanUp(s)
    ensures !BrowserExists(r.state)
    ensures !BrowserExists(s) ==> r == Step(s, [])
    ensures BrowserExists(s) ==>
              r.state.services == map[] && r.state.resolvers == map[] && |r.events| == |s.services|
    ensures forall i :: 0 <= i < |r.events| ==> r.events[i].ServiceRemoved?
  {
    CleanUp(s)
  }

  /** `browserExists`. */
  predicate BrowserExists(s: State)
  {
    s.browser.Some?
  }
}
