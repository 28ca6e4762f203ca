/**
 The state the Avahi wrapper keeps between callbacks and the events it emits to the
 application. Avahi's objects (entry group, service browser, service resolvers) are
 opaque tokens; the application-visible signals are appended to an event sequence.
 */
module Model {
  import opened Base
  import Decimal

  /** A 16-bit port number (`quint16` / `uint16_t`). */
  type Port = x: int | 0 <= x < 0x1_0000

  /** An opaque Avahi object: entry group, service browser or service resolver. */
  datatype Handle = Handle(id: nat)

  /** A host address as the resolver reported it, kept as uninterpreted text. */
  datatype HostAddress = HostAddress(text: string)

  /** `AvahiProtocol`: AVAHI_PROTO_INET, AVAHI_PROTO_INET6, AVAHI_PROTO_UNSPEC. */
  datatype Protocol = Inet | Inet6 | Unspec

  /**
   A running service browser: Avahi's browser object together with the protocol it
   was opened for (the `avahiProtocol` argument of `avahi_service_browser_new`).
   */
  datatype Browser = Browser(handle: Handle, protocol: Protocol)

  /** The error kinds the wrapper reports. */
  datatype ErrorKind = ServiceNameCollision | ServiceRegistrationFailed | BrowserFailed

  /** A discovered service (`QZeroConfService`); a fresh record has no addresses. */
  datatype Service = Service(
    name: string,
    serviceType: string,
    domain: string,
    host: string,
    interfaceIndex: int,
    port: Port,
    txt: map<string, string>,
    ip: Option<HostAddress>,
    ipv6: Option<HostAddress>)

  /** The signals of `QZeroConf`, in the order they are emitted. */
  datatype Event =
    | ServicePublished
    | ServiceAdded(service: Service)
    | ServiceUpdated(service: Service)
    | ServiceRemoved(service: Service)
    | Error(kind: ErrorKind)

  /**
   Everything the wrapper remembers: the optional entry group and browser, the
   resolvers and services maps keyed by `Key`, the TXT list to publish, and the
   name/type/domain of the last publish request (reused by a TXT update).
   */
  datatype State = State(
    group: Option<Handle>,
    browser: Option<Browser>,
    resolvers: map<string, Handle>,
    services: map<string, Service>,
    txt: seq<string>,
    publishedName: string,
    publishedType: string,
    publishedDomain: string)

  /** The outcome of one operation or callback: the new state and the signals emitted. */
  datatype Step = Step(state: State, events: seq<Event>)

  /** A freshly constructed wrapper: no group, no browser, empty maps, empty TXT list. */
  function Init(): State
  {
    State(None, None, map[], map[], [], "", "", "")
  }

  /** The map key of a browsed instance: the name followed by the decimal interface index. */
  function Key(name: string, interface: int): string
  {
    name + Decimal.Render(interface)
  }

  function KeyOf(svc: Service): string
  {
    Key(svc.name, svc.interfaceIndex)
  }

  /** Every stored service sits under the key its own name and interface give. */
  predicate Wf(s: State)
  {
    forall k :: k in s.services ==> KeyOf(s.services[k]) == k
  }

  lemma InitWf()
    ensures Wf(Init()) && Init().services == map[] && Init().resolvers == map[]
    ensures Init().group.None? && Init().browser.None?
  {
  }

  /** The key is not injective: two different instances can share one map slot. */
  lemma KeyCollision()
    ensures "a1" != "a" && 2 != 12
    ensures Key("a1", 2) == Key("a", 12)
  {
    assert Decimal.Digits(12) == Decimal.Digits(1) + [Decimal.DigitChar(2)];
  }

  /** For one name the key does tell interfaces apart. */
  lemma KeySameName(name: string, a: int, b: int)
    requires Key(name, a) == Key(name, b)
    ensures a == b
  {
    var ra, rb := Decimal.Render(a), Decimal.Render(b);
    assert ra == Key(name, a)[|name|..];
    assert rb == Key(name, b)[|name|..];
    Decimal.RenderInjective(a, b);
  }

  /**
   What an application observing the events believes: starting from the set of
   keys it knows are present, replays the events. None if an event is out of
   place: an add for a present key, or an update or removal for an absent one.
   */
  function Replay(known: set<string>, evs: seq<Event>): Option<set<string>>
    decreases |evs|
  {
    if |evs| == 0 then Some(known)
    else
      match evs[0]
      case ServiceAdded(svc) =>
        if KeyOf(svc) in known then None else Replay(known + {KeyOf(svc)}, evs[1..])
      case ServiceUpdated(svc) =>
        if KeyOf(svc) in known then Replay(known, evs[1..]) else None
      case ServiceRemoved(svc) =>
        if KeyOf(svc) in known then Replay(known - {KeyOf(svc)}, evs[1..]) else None
      case _ => Replay(known, evs[1..])
  }

  /** Replaying two event runs one after the other is replaying their concatenation. */
  lemma {:induction false} ReplayAppend(known: set<string>, a: seq<Event>, b: seq<Event>)
    ensures Replay(known, a + b) ==
              match Replay(known, a)
              case None => None
              case Some(mid) => Replay(mid, b)
    decreases |a|
  {
    if |a| == 0 {
      assert a + b == b;
    } else {
      assert (a + b)[0] == a[0];
      assert (a + b)[1..] == a[1..] + b;
      match a[0]
      case ServiceAdded(svc) =>
        ReplayAppend(known + {KeyOf(svc)}, a[1..], b);
      case ServiceUpdated(svc) =>
        ReplayAppend(known, a[1..], b);
      case ServiceRemoved(svc) =>
        ReplayAppend(known - {KeyOf(svc)}, a[1..], b);
      case _ =>
        ReplayAppend(known, a[1..], b);
    }
  }

  /** Replaying a single service signal. */
  lemma ReplayOne(known: set<string>, e: Event)
    ensures e.ServiceAdded? && KeyOf(e.service) !in known ==>
              Replay(known, [e]) == Some(known + {KeyOf(e.service)})
    ensures e.ServiceUpdated? && KeyOf(e.service) in known ==> Replay(known, [e]) == Some(known)
    ensures e.ServiceRemoved? && KeyOf(e.service) in known ==>
              Replay(known, [e]) == Some(known - {KeyOf(e.service)})
    ensures e.ServicePublished? || e.Error? ==> Replay(known, [e]) == Some(known)
  {
    assert [e][1..] == [];
  }
}
