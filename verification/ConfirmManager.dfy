/** Confirmations waiting for a user's answer or their timeout, whichever comes first. */
module ConfirmManager {
  import opened Options

  datatype Status = Pending | Approved | Rejected | TimedOut

  datatype Event = Answer(id: string, approved: bool) | TimerFires(id: string)

  function Decision(e: Event, id: string, hasTimer: bool): Status {
    match e
    case Answer(x, approved) => if x != id then Pending else if approved then Approved else Rejected
    case TimerFires(x) => if x == id && hasTimer then TimedOut else Pending
  }

  // The first thing that happens to a confirm decides it.
  function FirstDecision(events: seq<Event>, id: string, hasTimer: bool): Status {
    if events == [] then Pending else
      var earlier := FirstDecision(events[..|events| - 1], id, hasTimer);
      if earlier != Pending then earlier else Decision(events[|events| - 1], id, hasTimer)
  }

  // A confirm ends as the first event that concerns it says, whatever comes after, and stays pending if none does.
  lemma {:induction false} FirstEventDecides(events: seq<Event>, id: string, hasTimer: bool, i: nat)
    requires i < |events| && events[i].id == id && (events[i].TimerFires? ==> hasTimer)
    requires forall j :: 0 <= j < i ==> events[j].id != id || (events[j].TimerFires? && !hasTimer)
    ensures FirstDecision(events, id, hasTimer) ==
              match events[i]
              case Answer(_, approved) => if approved then Approved else Rejected
              case TimerFires(_) => TimedOut
  {
    var last := |events| - 1;
    if i < last {
      FirstEventDecides(events[..last], id, hasTimer, i);
    } else {
      NoEventLeavesPending(events[..last], id, hasTimer);
    }
  }

  lemma {:induction false} NoEventLeavesPending(events: seq<Event>, id: string, hasTimer: bool)
    requires forall j :: 0 <= j < |events| ==> events[j].id != id || (events[j].TimerFires? && !hasTimer)
    ensures FirstDecision(events, id, hasTimer) == Pending
  {
    if events != [] {
      NoEventLeavesPending(events[..|events| - 1], id, hasTimer);
    }
  }

  class Confirm {
    const id: string
    var status: Status
    var resolvedAt: Option<int>

    constructor (id: string)
      ensures this.id == id && status == Pending && resolvedAt == None
    {
      this.id, status, resolvedAt := id, Pending, None;
    }
  }

  class Manager {
    var pending: map<string, Confirm>
    // The timers started, and whether each may still go off; one that has gone off is never taken out.
    var timers: map<string, bool>
    // Every confirm ever created, and the ids that have left the pending map, in order
    ghost var issued: map<string, Confirm>
    ghost var departed: seq<string>
    ghost var cleared: set<string>

    ghost predicate Valid()
      reads this, issued.Values
    {
      && (forall id :: id in issued ==> issued[id].id == id)
      && (forall id :: id in pending ==> id in issued && pending[id] == issued[id] && issued[id].status == Pending)
      && (forall id :: id in issued && id !in pending && id !in cleared ==> issued[id].status != Pending)
      && (forall id :: id in issued ==> (issued[id].status == Pending <==> issued[id].resolvedAt == None))
      && timers.Keys <= issued.Keys
      && (forall i, j :: 0 <= i < j < |departed| ==> departed[i] != departed[j])
      && (forall i :: 0 <= i < |departed| ==> departed[i] in issued && departed[i] !in pending)
      && (forall id :: id in issued && id !in pending && id !in cleared ==> id in departed)
      && cleared <= issued.Keys && cleared !! pending.Keys
    }

    constructor ()
      ensures Valid() && pending == map[] && issued == map[] && departed == [] && cleared == {}
    {
      pending, timers, issued, departed, cleared := map[], map[], map[], [], {};
    }

    // Ids are random and new.
    method CreateConfirm(id: string, timeout: int) returns (confirm: Confirm)
      requires Valid() && id !in issued
      modifies this
      ensures Valid() && fresh(confirm) && confirm.status == Pending
      ensures pending == old(pending)[id := confirm] && issued == old(issued)[id := confirm]
      ensures timers == if timeout > 0 then old(timers)[id := true] else old(timers)
      ensures departed == old(departed) && cleared == old(cleared)
    {
      confirm := new Confirm(id);
      pending := pending[id := confirm];
      issued := issued[id := confirm];
      if timeout > 0 {
        timers := timers[id := true];
      }
    }

    // None for an id that is not pending: unknown, answered before, timed out or cleared.
    method Resolve(id: string, approved: bool, now: int) returns (confirm: Option<Confirm>)
      requires Valid()
      modifies this, pending.Values
      ensures Valid() && issued == old(issued) && cleared == old(cleared)
      ensures confirm.Some? <==> id in old(pending)
      ensures confirm.Some? ==>
                && confirm.value == old(pending)[id]
                && confirm.value.status == (if approved then Approved else Rejected)
                && confirm.value.resolvedAt == Some(now)
                && pending == old(pending) - {id} && departed == old(departed) + [id]
                && timers == old(timers) - {id}
      ensures confirm.None? ==> pending == old(pending) && departed == old(departed) && timers == old(timers)
      ensures forall other :: other in issued && !(other == id && id in old(pending)) ==>
                issued[other].status == old(issued[other].status)
    {
      if id !in pending {
        return None;
      }
      var found := pending[id];
      pending := pending - {id};
      departed := departed + [id];
      timers := timers - {id};
      found.status := if approved then Approved else Rejected;
      found.resolvedAt := Some(now);
      return Some(found);
    }

    // A timer that goes off. It has no effect on a confirm that was answered in the meantime.
    method AutoTimeout(id: string, now: int)
      requires Valid() && id in timers && timers[id]
      modifies this, pending.Values
      ensures Valid() && issued == old(issued) && cleared == old(cleared)
      ensures timers == old(timers)[id := false]
      ensures id in old(pending) ==>
                && pending == old(pending) - {id} && departed == old(departed) + [id]
                && issued[id].status == TimedOut && issued[id].resolvedAt == Some(now)
      ensures id !in old(pending) ==> pending == old(pending) && departed == old(departed)
      ensures forall other :: other in issued && !(other == id && id in old(pending)) ==>
                issued[other].status == old(issued[other].status)
    {
      timers := timers[id := false];
      if id in pending {
        var found := pending[id];
        pending := pending - {id};
        departed := departed + [id];
        if found.status == Pending {
          found.status := TimedOut;
          found.resolvedAt := Some(now);
        }
      }
    }

    // Forgets whatever is pending without deciding it: those confirms stay pending for whoever holds them.
    method Clear()
      requires Valid()
      modifies this
      ensures Valid() && issued == old(issued) && departed == old(departed)
      ensures pending == map[] && timers == map[] && cleared == old(cleared) + old(pending).Keys
    {
      cleared := cleared + pending.Keys;
      timers := map[];
      pending := map[];
    }

    predicate TimerRuns(id: string)
      reads this
    {
      id in timers && timers[id]
    }

    method Happen(e: Event, now: int)
      requires Valid()
      modifies this, pending.Values
      ensures Valid() && issued == old(issued) && cleared == old(cleared)
      ensures pending.Keys <= old(pending).Keys
      ensures forall id :: id in old(pending) ==>
                && issued[id].status == Decision(e, id, old(id in timers && timers[id]))
                && (id in pending <==> issued[id].status == Pending)
                && (id in pending ==> ((id in timers && timers[id]) <==> old(id in timers && timers[id])))
      ensures forall id :: id in issued && id !in old(pending) ==> issued[id].status == old(issued[id].status)
    {
      match e {
        case Answer(id, approved) =>
          var _ := Resolve(id, approved, now);
        case TimerFires(id) =>
          if TimerRuns(id) {
            AutoTimeout(id, now);
          }
      }
    }

    // Any answers and timers, in any order, for any confirms: each confirm that was pending ends as the first of
    // them decided, and has left the pending map exactly if one of them concerned it.
    method Race(events: seq<Event>, now: int)
      requires Valid()
      modifies this, pending.Values
      ensures Valid() && issued == old(issued)
      ensures forall id :: id in old(pending) ==>
                && issued[id].status == FirstDecision(events, id, old(id in timers && timers[id]))
                && (id in pending <==> issued[id].status == Pending)
      ensures forall id :: id in issued && id !in old(pending) ==> issued[id].status == old(issued[id].status)
    {
      ghost var all := pending;
      for i := 0 to |events|
        invariant Valid() && issued == old(issued) && pending.Keys <= all.Keys && cleared == old(cleared)
        invariant forall id :: id in all ==>
                    && issued[id].status == FirstDecision(events[..i], id, old(TimerRuns(id)))
                    && (id in pending <==> issued[id].status == Pending)
                    && (id in pending ==> (TimerRuns(id) <==> old(TimerRuns(id))))
        invariant forall id :: id in issued && id !in all ==> issued[id].status == old(issued[id].status)
      {
        assert events[..i + 1][..i] == events[..i];
        Happen(events[i], now);
      }
      assert events[..|events|] == events;
    }
  }
}
