/**
 The wrapper as a whole: every public call and every Avahi callback as one input,
 applied in sequence on the single poll loop. The lemmas here are about whole runs:
 the add/update/remove signals an application sees stay consistent with the
 services map, the entry group and the browser are what the inputs predict, and
 three example runs.
 */
module Session {
  import opened Base
  import opened Model
  import Txt
  import Browse
  import Publish

  datatype Input =
    | StartPublish(name: string, serviceType: string, domain: string, port: Port,
                   created: Handle, addOk: bool, commitOk: bool)
    | StopPublish
    | GroupChanged(groupState: Publish.GroupState)
    | AddTxt(nameOnly: string)
    | AddTxtValue(key: string, value: string)
    | ClearTxt
    | UpdateTxt(ok: bool)
    | StartBrowse(filter: Browse.NetworkLayerProtocol, browser: Option<Handle>)
    | StopBrowse
    | BrowserCallback(event: Browse.BrowserEvent, name: string, interface: int, resolver: Handle)
    | ResolverCallback(result: Browse.ResolverEvent, name: string, serviceType: string,
                       domain: string, host: string, interface: int, protocol: Protocol,
                       address: HostAddress, port: Port, txt: seq<string>)

  /** Inputs that never touch the services map. */
  predicate LeavesServices(input: Input)
  {
    !(input.StopBrowse? || input.BrowserCallback? || input.ResolverCallback?)
  }

  /** One input: a public call or an Avahi callback. */
  function Apply(s: State, input: Input): Step
  {
    if LeavesServices(input) then ApplyLocal(s, input) else ApplyDiscovery(s, input)
  }

  /** The publishing calls, the TXT list calls and `startBrowser`. */
  function ApplyLocal(s: State, input: Input): Step
    requires LeavesServices(input)
  {
    match input
    case StartPublish(name, serviceType, domain, port, created, addOk, commitOk) =>
      Publish.StartServicePublish(s, name, serviceType, domain, port, created, addOk, commitOk)
    case StopPublish => Publish.StopServicePublish(s)
    case GroupChanged(g) => Publish.GroupCallback(s, g)
    case AddTxt(nameOnly) => Publish.AddServiceTxtRecord(s, nameOnly)
    case AddTxtValue(key, value) => Publish.AddServiceTxtRecordValue(s, key, value)
    case ClearTxt => Publish.ClearServiceTxtRecords(s)
    case UpdateTxt(ok) => Publish.UpdateServiceTxtRecords(s, ok)
    case StartBrowse(protocol, browser) => Browse.StartBrowser(s, protocol, browser)
  }

  /** `stopBrowser` and the browser's and resolvers' callbacks. */
  function ApplyDiscovery(s: State, input: Input): Step
    requires !LeavesServices(input)
  {
    match input
    case StopBrowse => Browse.StopBrowser(s)
    case BrowserCallback(event, name, interface, resolver) =>
      Browse.BrowseCallback(s, event, name, interface, resolver)
    case ResolverCallback(result, name, serviceType, domain, host, interface, protocol, address, port, txt) =>
      Browse.ResolveCallback(s, result, name, serviceType, domain, host, interface, protocol, address, port, txt)
  }

  /** The inputs applied in order; the signals of all of them, in order. */
  function Run(s: State, inputs: seq<Input>): Step
    decreases |inputs|
  {
    if |inputs| == 0 then Step(s, [])
    else
      var first := Apply(s, inputs[0]);
      var rest := Run(first.state, inputs[1..]);
      Step(rest.state, first.events + rest.events)
  }

  /** Signals that do not concern discovered services leave an observer's view alone. */
  lemma {:induction false} ReplayNoServiceEvents(known: set<string>, evs: seq<Event>)
    requires forall i :: 0 <= i < |evs| ==> evs[i].ServicePublished? || evs[i].Error?
    ensures Replay(known, evs) == Some(known)
    decreases |evs|
  {
    if |evs| > 0 {
      ReplayNoServiceEvents(known, evs[1..]);
    }
  }

  /** The observer invariant for a browser failure. */
  lemma BrowseFailureKeepsObserverInSync(s: State)
    requires Wf(s)
    ensures Wf(Browse.BrowseFailure(s).state)
    ensures Replay(s.services.Keys, Browse.BrowseFailure(s).events) == Some(Browse.BrowseFailure(s).state.services.Keys)
  {
    var c := Browse.CleanUp(s);
    var r := Browse.BrowseFailure(s);
    assert r.events == c.events + [Error(BrowserFailed)];
    ReplayAppend(s.services.Keys, c.events, [Error(BrowserFailed)]);
    if s.browser.Some? {
      Browse.CleanUpReplay(s);
      ReplayOne({}, Error(BrowserFailed));
      assert r.state.services.Keys == {};
    } else {
      assert c.events == [];
      ReplayOne(s.services.Keys, Error(BrowserFailed));
    }
  }

  /** The observer invariant for an instance the browser reports gone. */
  lemma BrowseRemoveKeepsObserverInSync(s: State, name: string, interface: int)
    requires Wf(s)
    ensures var r := Browse.BrowseRemove(s, name, interface);
      Wf(r.state) && Replay(s.services.Keys, r.events) == Some(r.state.services.Keys)
  {
    var key := Key(name, interface);
    var r := Browse.BrowseRemove(s, name, interface);
    if key in s.resolvers && key in s.services {
      assert KeyOf(s.services[key]) == key;
      ReplayOne(s.services.Keys, ServiceRemoved(s.services[key]));
      assert r.state.services.Keys == s.services.Keys - {key};
    }
  }

  /** The observer invariant for a resolved instance. */
  lemma ResolveFoundKeepsObserverInSync(s: State, name: string, serviceType: string, domain: string,
                                        host: string, interface: int, protocol: Protocol,
                                        address: HostAddress, port: Port, txt: seq<string>)
    requires Wf(s)
    ensures Wf(Browse.ResolveFound(s, name, serviceType, domain, host, interface, protocol, address, port, txt).state)
    ensures var r := Browse.ResolveFound(s, name, serviceType, domain, host, interface, protocol, address, port, txt);
      Replay(s.services.Keys, r.events) == Some(r.state.services.Keys)
  {
    var r := Browse.ResolveFound(s, name, serviceType, domain, host, interface, protocol, address, port, txt);
    var key := Key(name, interface);
    assert KeyOf(r.state.services[key]) == key;
    forall k | k in r.state.services && k != key
      ensures KeyOf(r.state.services[k]) == k
    {
      assert (r.state.services - {key})[k] == (s.services - {key})[k];
    }
    ReplayOne(s.services.Keys, r.events[0]);
    assert r.events == [r.events[0]];
    assert KeyOf(r.events[0].service) == key;
    assert r.state.services.Keys == s.services.Keys + {key};
    if key in s.services {
      assert r.state.services.Keys == s.services.Keys;
    }
  }

  /** The observer invariant for an instance that could not be resolved. */
  lemma ResolveFailedKeepsObserverInSync(s: State, name: string, interface: int)
    requires Wf(s)
    ensures Wf(Browse.ResolveFailed(s, name, interface).state)
    ensures Replay(s.services.Keys, Browse.ResolveFailed(s, name, interface).events) ==
              Some(Browse.ResolveFailed(s, name, interface).state.services.Keys)
  {
    var key := Key(name, interface);
    if key in s.services {
      assert KeyOf(s.services[key]) == key;
      ReplayOne(s.services.Keys, ServiceRemoved(s.services[key]));
      assert Browse.ResolveFailed(s, name, interface).state.services.Keys == s.services.Keys - {key};
    }
  }

  lemma {:induction false} QuietInput(s: State, input: Input)
    requires LeavesServices(input)
    ensures Apply(s, input).state.services == s.services
    ensures forall i :: 0 <= i < |Apply(s, input).events| ==>
              Apply(s, input).events[i].ServicePublished? || Apply(s, input).events[i].Error?
  {
    match input
    case StartPublish(name, serviceType, domain, port, created, addOk, commitOk) =>
    case StopPublish =>
    case GroupChanged(g) =>
    case AddTxt(nameOnly) =>
    case AddTxtValue(key, value) =>
    case ClearTxt =>
    case UpdateTxt(ok) =>
    case StartBrowse(filter, browser) =>
  }

  /** The observer invariant, stated over `Apply`. */
  ghost predicate InSync(s: State, input: Input)
  {
    && Wf(Apply(s, input).state)
    && Replay(s.services.Keys, Apply(s, input).events) == Some(Apply(s, input).state.services.Keys)
  }

  lemma QuietInputInSync(s: State, input: Input)
    requires Wf(s) && LeavesServices(input)
    ensures InSync(s, input)
  {
    QuietInput(s, input);
    ReplayNoServiceEvents(s.services.Keys, Apply(s, input).events);
  }

  lemma StopBrowseInSync(s: State)
    requires Wf(s)
    ensures InSync(s, StopBrowse)
  {
    assert Apply(s, StopBrowse) == Browse.CleanUp(s);
    if s.browser.Some? {
      Browse.CleanUpReplay(s);
      assert Browse.CleanUp(s).state.services.Keys == {};
    }
  }

  lemma BrowserCallbackInSync(s: State, input: Input)
    requires Wf(s) && input.BrowserCallback?
    ensures InSync(s, input)
  {
    assert Apply(s, input) == Browse.BrowseCallback(s, input.event, input.name, input.interface, input.resolver);
    if input.event.Failure? {
      BrowseFailureKeepsObserverInSync(s);
    } else if input.event.Remove? {
      BrowseRemoveKeepsObserverInSync(s, input.name, input.interface);
    }
  }

  lemma ResolverCallbackInSync(s: State, input: Input)
    requires Wf(s) && input.ResolverCallback?
    ensures InSync(s, input)
  {
    if input.result.Found? {
      assert Apply(s, input) == Browse.ResolveFound(s, input.name, input.serviceType, input.domain, input.host,
                                                    input.interface, input.protocol, input.address, input.port,
                                                    input.txt);
      ResolveFoundKeepsObserverInSync(s, input.name, input.serviceType, input.domain, input.host,
                                      input.interface, input.protocol, input.address, input.port, input.txt);
    } else {
      assert Apply(s, input) == Browse.ResolveFailed(s, input.name, input.interface);
      ResolveFailedKeepsObserverInSync(s, input.name, input.interface);
    }
  }

  /**
   One input keeps the stored services under their own keys, and an observer that
   knew the stored keys before, replaying the signals, knows exactly the stored keys
   after: no add for a present key, no update or removal for an absent one.
   */
  lemma ApplyKeepsObserverInSync(s: State, input: Input)
    requires Wf(s)
    ensures Wf(Apply(s, input).state)
    ensures Replay(s.services.Keys, Apply(s, input).events) == Some(Apply(s, input).state.services.Keys)
  {
    if LeavesServices(input) {
      QuietInputInSync(s, input);
    } else if input.StopBrowse? {
      StopBrowseInSync(s);
    } else if input.BrowserCallback? {
      BrowserCallbackInSync(s, input);
    } else {
      ResolverCallbackInSync(s, input);
    }
  }

  /**
   Over any run, a service is announced as added at most once while present, updates
   and removals only concern present services, and the observer's view ends equal to
   the stored keys.
   */
  lemma {:induction false} RunKeepsObserverInSync(s: State, inputs: seq<Input>)
    requires Wf(s)
    ensures Wf(Run(s, inputs).state)
    ensures Replay(s.services.Keys, Run(s, inputs).events) == Some(Run(s, inputs).state.services.Keys)
    decreases |inputs|
  {
    if |inputs| > 0 {
      var first := Apply(s, inputs[0]);
      ApplyKeepsObserverInSync(s, inputs[0]);
      RunKeepsObserverInSync(first.state, inputs[1..]);
      ReplayAppend(s.services.Keys, first.events, Run(first.state, inputs[1..]).events);
    }
  }

  /**
   The entry group an input leaves, read off the input alone: an accepted publish
   request keeps the group it created only when adding and committing both
   succeed; a request while a group exists is refused and keeps it; stopping, a
   collision and a failure drop it; nothing else touches it.
   */
  function GroupEffect(group: Option<Handle>, input: Input): Option<Handle>
  {
    match input
    case StartPublish(_, _, _, _, created, addOk, commitOk) =>
      if group.Some? then group else if addOk && commitOk then Some(created) else None
    case StopPublish => None
    case GroupChanged(g) => if g.Collision? || g.Failure? then None else group
    case _ => group
  }

  /** The entry group after a sequence of inputs, one `GroupEffect` at a time. */
  function GroupAfter(group: Option<Handle>, inputs: seq<Input>): Option<Handle>
    decreases |inputs|
  {
    if |inputs| == 0 then group else GroupAfter(GroupEffect(group, inputs[0]), inputs[1..])
  }

  /** Each input leaves the entry group `GroupEffect` predicts. */
  lemma ApplyGroup(s: State, input: Input)
    ensures Apply(s, input).state.group == GroupEffect(s.group, input)
  {
  }

  /**
   Over any run, `publishExists` holds exactly when the last input that decides the
   group left one, and the group held is the one that input created.
   */
  lemma {:induction false} RunGroup(s: State, inputs: seq<Input>)
    ensures Run(s, inputs).state.group == GroupAfter(s.group, inputs)
    ensures Publish.PublishExists(Run(s, inputs).state) <==> GroupAfter(s.group, inputs).Some?
    decreases |inputs|
  {
    if |inputs| > 0 {
      ApplyGroup(s, inputs[0]);
      RunGroup(Apply(s, inputs[0]).state, inputs[1..]);
    }
  }

  /**
   The browser an input leaves, read off the input alone: `startBrowser` replaces
   any browser by the one Avahi opened for the filter's protocol, or by none;
   `stopBrowser` and a browser failure drop it; nothing else touches it.
   */
  function BrowserEffect(browser: Option<Model.Browser>, input: Input): Option<Model.Browser>
  {
    match input
    case StartBrowse(filter, created) =>
      if created.Some? then Some(Model.Browser(created.value, Browse.AvahiProtocolFor(filter))) else None
    case StopBrowse => None
    case BrowserCallback(event, _, _, _) => if event.Failure? then None else browser
    case _ => browser
  }

  /** The browser after a sequence of inputs, one `BrowserEffect` at a time. */
  function BrowserAfter(browser: Option<Model.Browser>, inputs: seq<Input>): Option<Model.Browser>
    decreases |inputs|
  {
    if |inputs| == 0 then browser else BrowserAfter(BrowserEffect(browser, inputs[0]), inputs[1..])
  }

  /** Each input leaves the browser `BrowserEffect` predicts. */
  lemma ApplyBrowser(s: State, input: Input)
    ensures Apply(s, input).state.browser == BrowserEffect(s.browser, input)
  {
  }

  /**
   Over any run, `browserExists` holds exactly when the last input that decides the
   browser left one, and that browser is the one Avahi opened for the last filter.
   */
  lemma {:induction false} RunBrowser(s: State, inputs: seq<Input>)
    ensures Run(s, inputs).state.browser == BrowserAfter(s.browser, inputs)
    ensures Browse.BrowserExists(Run(s, inputs).state) <==> BrowserAfter(s.browser, inputs).Some?
    decreases |inputs|
  {
    if |inputs| > 0 {
      ApplyBrowser(s, inputs[0]);
      RunBrowser(Apply(s, inputs[0]).state, inputs[1..]);
    }
  }

  /** Every stored service still has the resolver that found it. */
  predicate ResolversCover(s: State)
  {
    s.services.Keys <= s.resolvers.Keys
  }

  /**
   Avahi calls a resolver back only while the wrapper holds it: a resolver's
   callback names a key in the resolvers map.
   */
  predicate FromLiveResolver(s: State, input: Input)
  {
    input.ResolverCallback? ==> Key(input.name, input.interface) in s.resolvers
  }

  /** Every resolver callback of the run comes from a resolver held at that point. */
  predicate LiveRun(s: State, inputs: seq<Input>)
    decreases |inputs|
  {
    |inputs| == 0 || (FromLiveResolver(s, inputs[0]) && LiveRun(Apply(s, inputs[0]).state, inputs[1..]))
  }

  /**
   One input keeps every stored service covered by a live resolver, provided a
   resolver callback comes from a resolver the wrapper holds.
   */
  lemma ApplyKeepsResolversCover(s: State, input: Input)
    requires ResolversCover(s) && FromLiveResolver(s, input)
    ensures ResolversCover(Apply(s, input).state)
  {
  }

  /**
   Over any run whose resolver callbacks come from held resolvers, every stored
   service keeps a resolver: a service is dropped no later than its resolver.
   */
  lemma {:induction false} RunKeepsResolversCover(s: State, inputs: seq<Input>)
    requires ResolversCover(s) && LiveRun(s, inputs)
    ensures ResolversCover(Run(s, inputs).state)
    decreases |inputs|
  {
    if |inputs| > 0 {
      ApplyKeepsResolversCover(s, inputs[0]);
      RunKeepsResolversCover(Apply(s, inputs[0]).state, inputs[1..]);
    }
  }

  /** The inputs `addServiceTxtRecord(key, value)` for each pair, in order. */
  function AddInputs(ps: seq<Txt.Pair>): seq<Input>
    decreases |ps|
  {
    if |ps| == 0 then [] else [AddTxtValue(ps[0].key, ps[0].value)] + AddInputs(ps[1..])
  }

  lemma ApplyAddTxtValue(s: State, key: string, value: string)
    ensures Apply(s, AddTxtValue(key, value)) == Step(s.(txt := s.txt + [Txt.Entry(key, value)]), [])
  {
  }

  lemma RunCons(s: State, inputs: seq<Input>)
    requires |inputs| > 0
    ensures var first := Apply(s, inputs[0]);
      var rest := Run(first.state, inputs[1..]);
      Run(s, inputs) == Step(rest.state, first.events + rest.events)
  {
  }

  /** Adding the first pair, then the rest. */
  lemma AddsStep(s: State, ps: seq<Txt.Pair>)
    requires |ps| > 0
    ensures Run(s, AddInputs(ps)) ==
              Run(s.(txt := s.txt + [Txt.Entry(ps[0].key, ps[0].value)]), AddInputs(ps[1..]))
  {
    var ins := AddInputs(ps);
    assert ins[0] == AddTxtValue(ps[0].key, ps[0].value);
    assert ins[1..] == AddInputs(ps[1..]);
    ApplyAddTxtValue(s, ps[0].key, ps[0].value);
    RunCons(s, ins);
    assert [] + Run(s.(txt := s.txt + [Txt.Entry(ps[0].key, ps[0].value)]), ins[1..]).events ==
           Run(s.(txt := s.txt + [Txt.Entry(ps[0].key, ps[0].value)]), ins[1..]).events;
  }

  /** Adding pairs appends their entries to the TXT list. */
  lemma {:induction false} AddsAppendEntries(s: State, ps: seq<Txt.Pair>)
    ensures Run(s, AddInputs(ps)).state.txt == s.txt + Txt.Entries(ps)
    decreases |ps|
  {
    if |ps| == 0 {
      assert s.txt + Txt.Entries(ps) == s.txt;
    } else {
      var e := Txt.Entry(ps[0].key, ps[0].value);
      var s' := s.(txt := s.txt + [e]);
      AddsStep(s, ps);
      AddsAppendEntries(s', ps[1..]);
      assert s'.txt + Txt.Entries(ps[1..]) == s.txt + Txt.Entries(ps) by {
        assert Txt.Entries(ps) == [e] + Txt.Entries(ps[1..]);
      }
    }
  }

  /** Adding pairs emits nothing and changes nothing but the TXT list. */
  lemma {:induction false} AddsKeepRest(s: State, ps: seq<Txt.Pair>)
    ensures Run(s, AddInputs(ps)).state.(txt := s.txt) == s
    ensures Run(s, AddInputs(ps)).events == []
    decreases |ps|
  {
    if |ps| > 0 {
      var s' := s.(txt := s.txt + [Txt.Entry(ps[0].key, ps[0].value)]);
      AddsStep(s, ps);
      AddsKeepRest(s', ps[1..]);
    }
  }

  /**
   TXT round trip: after clearing the list and adding `key=value` entries, the list
   a resolver receives reads back as the added names, each with its last value,
   provided no name or value holds '='.
   */
  lemma PublishedTxtRoundTrip(s: State, ps: seq<Txt.Pair>)
    requires forall i :: 0 <= i < |ps| ==> Txt.Separator !in ps[i].key && Txt.Separator !in ps[i].value
    ensures var m := Txt.ParseTxt(Run(s, [ClearTxt] + AddInputs(ps)).state.txt);
      && (forall k :: k in m <==> exists i :: 0 <= i < |ps| && ps[i].key == k)
      && (forall i :: 0 <= i < |ps| && (forall j :: i < j < |ps| ==> ps[j].key != ps[i].key) ==>
            m[ps[i].key] == ps[i].value)
  {
    var cleared := s.(txt := []);
    assert ([ClearTxt] + AddInputs(ps))[1..] == AddInputs(ps);
    RunCons(s, [ClearTxt] + AddInputs(ps));
    AddsAppendEntries(cleared, ps);
    assert Run(s, [ClearTxt] + AddInputs(ps)).state.txt == Txt.Entries(ps);
    Txt.TxtRoundTripKeys(ps);
    Txt.TxtRoundTripValues(ps);
  }

  /** Two inputs in a row: the signals of the first, then those of the second. */
  lemma RunTwo(s: State, a: Input, b: Input)
    ensures var first := Apply(s, a);
      var second := Apply(first.state, b);
      Run(s, [a, b]) == Step(second.state, first.events + second.events)
  {
    var first := Apply(s, a);
    var second := Apply(first.state, b);
    assert [a, b][1..] == [b];
    assert [b][1..] == [];
    assert Run(first.state, [b]) == Step(second.state, second.events + []);
    assert second.events + [] == second.events;
  }

  /** Publishing with no conflict: `servicePublished` fires and the group exists. */
  lemma PublishEstablishedScenario(h: Handle)
    ensures var r := Run(Init(), [StartPublish("MyPrinter", "_http._tcp", "local", 8080, h, true, true),
                                  GroupChanged(Publish.Established)]);
      r.events == [ServicePublished] && Publish.PublishExists(r.state)
  {
    var start := StartPublish("MyPrinter", "_http._tcp", "local", 8080, h, true, true);
    RunTwo(Init(), start, GroupChanged(Publish.Established));
    assert Apply(Init(), start).events == [];
    assert Apply(Init(), start).state.group == Some(h);
  }

  /** A name collision after committing: the collision is reported and the group is gone. */
  lemma PublishCollisionScenario(h: Handle)
    ensures var r := Run(Init(), [StartPublish("MyPrinter", "_http._tcp", "local", 8080, h, true, true),
                                  GroupChanged(Publish.Collision)]);
      r.events == [Error(ServiceNameCollision)] && !Publish.PublishExists(r.state)
  {
    var start := StartPublish("MyPrinter", "_http._tcp", "local", 8080, h, true, true);
    RunTwo(Init(), start, GroupChanged(Publish.Collision));
    assert Apply(Init(), start).events == [];
  }

  /**
   Browsing: an instance seen, resolved to host/port/address, then removed by the
   browser, is reported added with exactly those fields and then removed.
   */
  lemma BrowseResolveRemoveScenario(b: Handle, res: Handle)
    ensures var svc := Service("Printer1", "_http._tcp", "local", "printer1.local", 2, 8080,
                               map[], Some(HostAddress("10.0.0.5")), None);
      var r := Run(Init(), [StartBrowse(Browse.AnyIPProtocol, Some(b)),
                            BrowserCallback(Browse.New, "Printer1", 2, res),
                            ResolverCallback(Browse.Found, "Printer1", "_http._tcp", "local",
                                             "printer1.local", 2, Inet, HostAddress("10.0.0.5"), 8080, []),
                            BrowserCallback(Browse.Remove, "Printer1", 2, res)]);
      r.events == [ServiceAdded(svc), ServiceRemoved(svc)]
      && r.state.services == map[] && r.state.resolvers == map[] && Browse.BrowserExists(r.state)
  {
    var svc := Service("Printer1", "_http._tcp", "local", "printer1.local", 2, 8080,
                       map[], Some(HostAddress("10.0.0.5")), None);
    var key := Key("Printer1", 2);
    var i1 := StartBrowse(Browse.AnyIPProtocol, Some(b));
    var i2 := BrowserCallback(Browse.New, "Printer1", 2, res);
    var i3 := ResolverCallback(Browse.Found, "Printer1", "_http._tcp", "local",
                               "printer1.local", 2, Inet, HostAddress("10.0.0.5"), 8080, []);
    var i4 := BrowserCallback(Browse.Remove, "Printer1", 2, res);
    var ins := [i1, i2, i3, i4];

    var s1 := Apply(Init(), i1);
    assert s1 == Step(Init().(browser := Some(Model.Browser(b, Unspec))), []);
    var s2 := Apply(s1.state, i2);
    assert s2 == Step(s1.state.(resolvers := map[key := res]), []);
    var s3 := Apply(s2.state, i3);
    assert Txt.ParseTxt([]) == map[];
    assert s3 == Step(s2.state.(services := map[key := svc]), [ServiceAdded(svc)]);
    var s4 := Apply(s3.state, i4);
    assert s3.state.resolvers - {key} == map[];
    assert s3.state.services - {key} == map[];
    assert s4 == Step(s3.state.(resolvers := map[], services := map[]), [ServiceRemoved(svc)]);

    RunTwo(s2.state, i3, i4);
    assert ins[2..] == [i3, i4];
    assert ins[1..][1..] == ins[2..];
    assert Run(s1.state, ins[1..]) == Step(s4.state, s2.events + s3.events + s4.events);
    assert Run(Init(), ins) == Step(s4.state, s1.events + s2.events + s3.events + s4.events);
  }
}
