/** Which sessions the host's input reaches, and what the host's toggles do to that. */
module InputRouting {
  import opened Prelude
  import opened Packets
  import opened HostCommands
  import opened Authority
  import opened AuthorityProofs
  import opened CommandAuthority

  predicate IsInputTo(e: Effect, id: uint32) {
    e.Sent? && e.to == id && e.packet.Input?
  }

  function InputsTo(es: seq<Effect>, id: uint32): nat {
    if es == [] then 0 else (if IsInputTo(es[0], id) then 1 else 0) + InputsTo(es[1..], id)
  }

  lemma {:induction false} NoneCountsZero(es: seq<Effect>, id: uint32)
    requires forall i :: 0 <= i < |es| ==> !IsInputTo(es[i], id)
    ensures InputsTo(es, id) == 0
  {
    if es != [] {
      NoneCountsZero(es[1..], id);
    }
  }

  lemma {:induction false} RecipientsAreWanted(s: Server, audience: Audience, ids: seq<uint32>)
    ensures forall id :: id in Recipients(s, audience, ids) <==> id in ids && Wanted(s, audience, id)
    ensures Distinct(ids) ==> Distinct(Recipients(s, audience, ids))
  {
    hide Wanted;
    if ids != [] {
      RecipientsAreWanted(s, audience, ids[1..]);
      if Distinct(ids) {
        DistinctTail(ids);
      }
    }
  }

  lemma {:induction false} SendsReachOnce(s: Server, ids: seq<uint32>, p: Packet, id: uint32)
    requires Distinct(ids) && p.Input?
    ensures InputsTo(Sends(s, ids, p), id) == if id in ids && id in s.info && s.info[id].active then 1 else 0
  {
    if ids != [] {
      DistinctTail(ids);
      SendsReachOnce(s, ids[1..], p, id);
      var head := if ids[0] in s.info && s.info[ids[0]].active then [Sent(ids[0], p)] else [];
      if head != [] {
        TailOfCons(Sent(ids[0], p), Sends(s, ids[1..], p));
      } else {
        assert head + Sends(s, ids[1..], p) == Sends(s, ids[1..], p);
      }
    }
  }

  /** The step is the arrival of readable input from the host. */
  predicate Relays(s: Server, step: Step) {
    && Enabled(s, step)
    && step.MessageArrives? && step.packet.Input? && step.packet.parses
    && step.id == s.host
  }

  /** Another session that has completed its handshake, is a receiver or broadcaster and has
      input enabled. */
  predicate Eligible(s: Server, id: uint32) {
    && id in s.listed && id in s.info && id != s.host
    && s.info[id].appHandshakeComplete
    && (s.info[id].role == Receiver || s.info[id].role == Broadcaster)
    && s.info[id].canReceiveInput
  }

  /** Input goes out only when the host's input arrives, then exactly once to each eligible
      session and not at all to any other. */
  lemma {:induction false} InputReachesExactlyEligible(s: Server, step: Step, id: uint32)
    requires Inv(s)
    ensures s.log <= Next(s, step).log
    ensures InputsTo(Added(s, step), id) == if Relays(s, step) && Eligible(s, id) then 1 else 0
  {
    hide HandleDisconnect, Stop, FromSession;
    var r := Next(s, step);
    if Relays(s, step) {
      RelayedOnce(s, step.packet, id);
    } else {
      if Enabled(s, step) {
        StepGrows(s, step, NotInput);
      }
      NoneCountsZero(r.log[|s.log|..], id);
    }
  }

  lemma {:induction false} RelayedOnce(s: Server, p: Packet, id: uint32)
    requires Inv(s) && s.host in s.info && s.info[s.host].active && p.Input? && p.parses
    ensures var r := FromSession(s, s.host, p);
            && s.log <= r.log
            && InputsTo(r.log[|s.log|..], id) == if Eligible(s, id) then 1 else 0
  {
    hide Recipients, Sends, Distinct;
    var to := Recipients(s, Receivers(true), s.listed);
    assert s.host != 0 && s.info[s.host].appHandshakeComplete;
    RecipientsAreWanted(s, Receivers(true), s.listed);
    SendsReachOnce(s, to, p, id);
    var r := FromSession(s, s.host, p);
    assert r.log == s.log + Sends(s, to, p);
    assert r.log[|s.log|..] == Sends(s, to, p);
  }

  predicate NotInput(e: Effect) {
    !(e.Sent? && e.packet.Input?)
  }

  // ---------------------------------------------------------------- toggles

  /** The session and value of a toggle the server accepts: sent by the host, about a listed
      receiver. */
  function AcceptedToggle(s: Server, step: Step): Option<(uint32, bool)> {
    if Enabled(s, step) && step.MessageArrives? && step.packet.Command?
       && s.info[step.id].appHandshakeComplete && s.info[step.id].role == Host && step.id == s.host
    then (
      match Parse(step.packet.text)
      case ToggleInput(target, enabled) =>
        if target in s.listed && target in s.info && s.info[target].role == Receiver
        then Some((target, enabled)) else None
      case _ => None
    )
    else None
  }

  /** The last accepted toggle for a session in a run; enabled if there was none. */
  function LastToggle(start: Server, steps: seq<Step>, id: uint32): bool {
    if steps == [] then true
    else
      var before := Run(start, steps[..|steps| - 1]);
      var toggle := AcceptedToggle(before, steps[|steps| - 1]);
      if toggle.Some? && toggle.value.0 == id then toggle.value.1
      else LastToggle(start, steps[..|steps| - 1], id)
  }

  lemma FlagChangesExactly(s: Server, step: Step, id: uint32)
    requires Inv(s) && Next(s, step).accepts < TWO_TO_THE_32
    ensures id in s.info ==> id in Next(s, step).info
    ensures id in s.info ==>
              Next(s, step).info[id].canReceiveInput ==
              var t := AcceptedToggle(s, step);
              if t.Some? && t.value.0 == id then t.value.1 else s.info[id].canReceiveInput
    ensures id !in s.info && id in Next(s, step).info ==> Next(s, step).info[id].canReceiveInput
    ensures id !in s.info ==> AcceptedToggle(s, step).None? || AcceptedToggle(s, step).value.0 != id
  {
    hide FromSession, HandleDisconnect, Parse, Distinct;
    if Enabled(s, step) {
      match step
      case MessageArrives(from, Handshake(payload)) =>
        HelloKeepsFlags(s, from, payload);
      case MessageArrives(from, Command(text)) => CommandMessageSets(s, from, text);
      case MessageArrives(from, p) => OtherPacketSets(s, from, p);
      case DisconnectReported(from) => DisconnectSets(s, from);
      case _ =>
    }
  }

  lemma HelloKeepsFlags(s: Server, id: uint32, payload: Option<HandshakePayload>)
    requires id in s.info && s.info[id].active
    ensures var r := FromSession(s, id, Handshake(payload));
            && r.info.Keys == s.info.Keys
            && forall x :: x in s.info ==> r.info[x].canReceiveInput == s.info[x].canReceiveInput
  {
    hide ProcessHandshake, GrantedRole, Authenticated;
    HandshakeSets(Greeting(s, id),
                  id, payload);
  }

  /** In every reachable state a session's input flag is the host's last accepted toggle for
      it, or true if there was none. */
  lemma {:induction false} FlagIsLastToggle(password: string, tree: Option<seq<byte>>, steps: seq<Step>, id: uint32)
    requires Run(Started(password, tree), steps).accepts < TWO_TO_THE_32
    ensures var s := Run(Started(password, tree), steps);
            var last := LastToggle(Started(password, tree), steps, id);
            if id in s.info then s.info[id].canReceiveInput == last else last
    decreases steps
  {
    hide Next, AcceptedToggle, Inv;
    var start := Started(password, tree);
    if steps != [] {
      var init := steps[..|steps| - 1];
      AcceptsOnlyGrow(Run(start, init), steps[|steps| - 1]);
      FlagIsLastToggle(password, tree, init, id);
      ServerSafety(password, tree, init);
      FlagChangesExactly(Run(start, init), steps[|steps| - 1], id);
    }
  }

  /** So a receiver whose last accepted toggle was off gets no input, whatever happens next. */
  lemma {:induction false} DisabledGetsNoInput(password: string, tree: Option<seq<byte>>, steps: seq<Step>,
                                               step: Step, id: uint32)
    requires Run(Started(password, tree), steps).accepts < TWO_TO_THE_32
    ensures !LastToggle(Started(password, tree), steps, id) ==>
              InputsTo(Added(Run(Started(password, tree), steps), step), id) == 0
  {
    hide Inv, Added, Next, LastToggle, Enabled, AcceptedToggle;
    ServerSafety(password, tree, steps);
    FlagIsLastToggle(password, tree, steps, id);
    InputReachesExactlyEligible(Run(Started(password, tree), steps), step, id);
  }
}
