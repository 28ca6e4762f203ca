/**
 Publishing: one entry group at a time. A publish request creates a group, adds the
 service with the current TXT list and commits; the group's state callbacks then
 report success, a name collision or a failure. Each Avahi call's success is an
 input of the model.
 */
module Publish {
  import opened Base
  import opened Model
  import Txt

  /** `AvahiEntryGroupState`. */
  datatype GroupState = Uncommited | Registering | Established | Collision | Failure

  /** `publishExists`. */
  predicate PublishExists(s: State)
  {
    s.group.Some?
  }

  /**
   `startServicePublish`. With a group already present the request is refused with
   `serviceRegistrationFailed` and nothing else changes. Otherwise the name, type and
   domain are remembered and the new group `created` is kept only if both adding the
   service (`addOk`) and committing (`commitOk`) succeed; a failed add reports the
   error once, a failed commit reports it twice.
   */
  function StartServicePublish(s: State, name: string, serviceType: string, domain: string,
                               port: Port, created: Handle, addOk: bool, commitOk: bool): (r: Step)
    ensures PublishExists(s) ==> r == Step(s, [Error(ServiceRegistrationFailed)])
    ensures !PublishExists(s) ==>
              r.state == s.(group := r.state.group, publishedName := name,
                            publishedType := serviceType, publishedDomain := domain)
    ensures !PublishExists(s) ==> (PublishExists(r.state) <==> addOk && commitOk)
    ensures !PublishExists(s) && PublishExists(r.state) ==> r.state.group == Some(created)
    ensures forall i :: 0 <= i < |r.events| ==> r.events[i] == Error(ServiceRegistrationFailed)
    ensures !PublishExists(s) ==>
              |r.events| == (if !addOk then 1 else if !commitOk then 2 else 0)
  {
    if s.group.Some? then Step(s, [Error(ServiceRegistrationFailed)])
    else
      var named := s.(publishedName := name, publishedType := serviceType, publishedDomain := domain);
      if !addOk then
        Step(named.(group := None), [Error(ServiceRegistrationFailed)])
      else if !commitOk then
        Step(named.(group := None), [Error(ServiceRegistrationFailed), Error(ServiceRegistrationFailed)])
      else
        Step(named.(group := Some(created)), [])
  }

  /** A publish request from an idle wrapper fails visibly exactly when no group is left. */
  lemma StartReportsFailureIffNoGroup(s: State, name: string, serviceType: string, domain: string,
                                      port: Port, created: Handle, addOk: bool, commitOk: bool)
    requires !PublishExists(s)
    ensures var r := StartServicePublish(s, name, serviceType, domain, port, created, addOk, commitOk);
      r.events == [] <==> PublishExists(r.state)
  {
  }

  /** `stopServicePublish`: the group, if any, is released; no signal. */
  function StopServicePublish(s: State): (r: Step)
    ensures !PublishExists(r.state)
    ensures r.events == []
    ensures r.state.(group := s.group) == s
  {
    if s.group.Some? then Step(s.(group := None), []) else Step(s, [])
  }

  /**
   The entry group's state callback: ESTABLISHED reports `servicePublished`;
   COLLISION and FAILURE release the group and report `serviceNameCollision` or
   `serviceRegistrationFailed`; the other states do nothing.
   */
  function GroupCallback(s: State, state: GroupState): (r: Step)
    ensures r.state.(group := s.group) == s
    ensures state.Established? ==> r == Step(s, [ServicePublished])
    ensures state.Collision? ==> !PublishExists(r.state) && r.events == [Error(ServiceNameCollision)]
    ensures state.Failure? ==> !PublishExists(r.state) && r.events == [Error(ServiceRegistrationFailed)]
    ensures state.Uncommited? || state.Registering? ==> r == Step(s, [])
  {
    match state
    case Established => Step(s, [ServicePublished])
    case Collision => Step(s.(group := None), [Error(ServiceNameCollision)])
    case Failure => Step(s.(group := None), [Error(ServiceRegistrationFailed)])
    case Uncommited => Step(s, [])
    case Registering => Step(s, [])
  }

  /** `addServiceTxtRecord(nameOnly)`: the bare name joins the TXT list. */
  function AddServiceTxtRecord(s: State, nameOnly: string): (r: Step)
    ensures r.events == []
    ensures r.state.txt == s.txt + [nameOnly]
    ensures r.state.(txt := s.txt) == s
  {
    Step(s.(txt := s.txt + [nameOnly]), [])
  }

  /** `addServiceTxtRecord(name, value)`: the entry `name=value` joins the TXT list. */
  function AddServiceTxtRecordValue(s: State, name: string, value: string): (r: Step)
    ensures r.events == []
    ensures r.state.txt == s.txt + [Txt.Entry(name, value)]
    ensures r.state.(txt := s.txt) == s
  {
    AddServiceTxtRecord(s, Txt.Entry(name, value))
  }

  /** `clearServiceTxtRecords`: the TXT list is emptied. */
  function ClearServiceTxtRecords(s: State): (r: Step)
    ensures r.events == [] && r.state.txt == []
    ensures r.state.(txt := s.txt) == s
  {
    Step(s.(txt := []), [])
  }

  /**
   `updateServiceTxtRecords`: without a group nothing happens; otherwise the current
   TXT list is sent for the remembered name, and a failure (`ok` false) is reported
   as `serviceRegistrationFailed`. The group is kept either way.
   */
  function UpdateServiceTxtRecords(s: State, ok: bool): (r: Step)
    ensures r.state == s
    ensures r.events == [] || r.events == [Error(ServiceRegistrationFailed)]
    ensures r.events != [] <==> PublishExists(s) && !ok
  {
    if !PublishExists(s) then Step(s, [])
    else if !ok then Step(s, [Error(ServiceRegistrationFailed)])
    else Step(s, [])
  }
}
