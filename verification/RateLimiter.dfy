/** The fixed-window limiter on password-reset requests, and the Redis script it stands in for. */
module RateLimiter {
  import opened Options

  datatype Rule = Rule(key: string, limit: int, window: int)

  datatype Entry = Entry(count: int, deadline: real)

  type Counters = map<string, Entry>

  datatype Verdict = Allowed | Refused(retryAfter: int)

  // One request counted against one rule
  datatype Charge = Charge(rule: Rule, now: real, count: int, deadline: real) {
    predicate Passed() { count <= rule.limit }
  }

  datatype Outcome = Outcome(counters: Counters, verdict: Verdict, charges: seq<Charge>)

  const MAX_COUNTERS := 10_000

  // int() of a float drops the fraction, towards zero
  function Truncated(x: real): int {
    if x >= 0.0 then x.Floor else -((-x).Floor)
  }

  function Max(a: int, b: int): int { if a >= b then a else b }

  function RetryAfter(deadline: real, now: real): int {
    Max(Truncated(deadline - now), 1)
  }

  // The entry that still counts, if any
  function Live(c: Counters, key: string, now: real): Option<Entry> {
    if key in c && c[key].deadline > now then Some(c[key]) else None
  }

  function ChargeFor(c: Counters, rule: Rule, now: real): Charge {
    match Live(c, rule.key, now)
    case Some(e) => Charge(rule, now, e.count + 1, e.deadline)
    case None => Charge(rule, now, 1, now + rule.window as real)
  }

  function Pruned(c: Counters, now: real): Counters {
    map k | k in c && c[k].deadline > now :: c[k]
  }

  // The rules are charged in turn until one refuses.
  function Enforced(c: Counters, rules: seq<Rule>, now: real): Outcome
    decreases |rules|
  {
    if rules == [] then Outcome(c, Allowed, []) else
      var charge := ChargeFor(c, rules[0], now);
      var next := c[rules[0].key := Entry(charge.count, charge.deadline)];
      if !charge.Passed() then Outcome(next, Refused(RetryAfter(charge.deadline, now)), [charge])
      else
        var rest := Enforced(next, rules[1..], now);
        rest.(charges := [charge] + rest.charges)
  }

  // The advertised wait: the whole seconds left, and one if there is less than one left.
  lemma RetryAfterIs(deadline: real, now: real)
    requires deadline > now
    ensures deadline - now < 1.0 ==> RetryAfter(deadline, now) == 1
    ensures deadline - now >= 1.0 ==>
              RetryAfter(deadline, now) as real <= deadline - now < RetryAfter(deadline, now) as real + 1.0
  {
  }

  // What charging the next rule does: an entry that has not expired counts one more under its deadline, any other is
  // opened anew; over the limit the request is refused and no later rule is charged.
  lemma ChargedInTurn(c: Counters, rule: Rule, rest: seq<Rule>, now: real)
    ensures var counts := rule.key in c && c[rule.key].deadline > now;
            var count := if counts then c[rule.key].count + 1 else 1;
            var deadline := if counts then c[rule.key].deadline else now + rule.window as real;
            var outcome := Enforced(c, [rule] + rest, now);
            var later := Enforced(c[rule.key := Entry(count, deadline)], rest, now);
            if count > rule.limit then
              && outcome.counters == c[rule.key := Entry(count, deadline)]
              && outcome.verdict == Refused(RetryAfter(deadline, now))
              && outcome.charges == [Charge(rule, now, count, deadline)]
            else
              && outcome.counters == later.counters && outcome.verdict == later.verdict
              && outcome.charges == [Charge(rule, now, count, deadline)] + later.charges
    ensures Enforced(c, [], now) == Outcome(c, Allowed, [])
  {
    assert ([rule] + rest)[1..] == rest;
  }

  class MemoryLimiter {
    var counters: Counters

    constructor ()
      ensures counters == map[]
    {
      counters := map[];
    }

    method Prune(now: real)
      modifies this
      ensures counters == map k | k in old(counters) && old(counters)[k].deadline > now :: old(counters)[k]
      ensures counters == Pruned(old(counters), now)
    {
      var expired := set k | k in counters && counters[k].deadline <= now;
      var left := expired;
      while left != {}
        invariant left <= expired
        invariant counters == map k | k in old(counters) && (k in left || k !in expired) :: old(counters)[k]
        decreases left
      {
        var k :| k in left;
        counters := counters - {k};
        left := left - {k};
      }
    }

    method EnforceMemory(rules: seq<Rule>, now: real) returns (verdict: Verdict)
      modifies this
      ensures var kept := if |old(counters)| > 10_000
                          then map k | k in old(counters) && old(counters)[k].deadline > now :: old(counters)[k]
                          else old(counters);
              var outcome := Enforced(kept, rules, now);
              counters == outcome.counters && verdict == outcome.verdict
      ensures var outcome := Enforced(Kept(old(counters), now, Some(MAX_COUNTERS)), rules, now);
              counters == outcome.counters && verdict == outcome.verdict
    {
      if |counters| > MAX_COUNTERS {
        Prune(now);
      }
      ghost var goal := Enforced(counters, rules, now);
      for i := 0 to |rules|
        invariant goal.counters == Enforced(counters, rules[i..], now).counters
        invariant goal.verdict == Enforced(counters, rules[i..], now).verdict
      {
        var rule := rules[i];
        var count, deadline := 0, now + rule.window as real;
        if rule.key in counters {
          count, deadline := counters[rule.key].count, counters[rule.key].deadline;
        }
        if deadline <= now {
          count, deadline := 0, now + rule.window as real;
        }
        count := count + 1;
        assert rules[i..][0] == rule && rules[i..][1..] == rules[i + 1..];
        counters := counters[rule.key := Entry(count, deadline)];
        if count > rule.limit {
          return Refused(RetryAfter(deadline, now));
        }
      }
      assert rules[|rules|..] == [];
      return Allowed;
    }
  }

  // ---------------------------------------------------------------- whole runs

  datatype Request = Request(rules: seq<Rule>, now: real)

  // What a run of requests leaves behind, what it was told, and everything that was counted on the way
  datatype Report = Report(counters: Counters, verdicts: seq<Verdict>, charges: seq<Charge>)

  predicate ClockRises(requests: seq<Request>) {
    forall i, j :: 0 <= i < j < |requests| ==> requests[i].now <= requests[j].now
  }

  // With a cap the counters are pruned first whenever there are more of them; without one, never.
  function Kept(c: Counters, now: real, cap: Option<nat>): Counters {
    if cap.Some? && |c| > cap.value then Pruned(c, now) else c
  }

  function Served(c: Counters, requests: seq<Request>, cap: Option<nat>): Report {
    if requests == [] then Report(c, [], []) else
      var before, last := Served(c, requests[..|requests| - 1], cap), requests[|requests| - 1];
      var out := Enforced(Kept(before.counters, last.now, cap), last.rules, last.now);
      Report(out.counters, before.verdicts + [out.verdict], before.charges + out.charges)
  }

  predicate NotAfter(requests: seq<Request>, now: real) {
    requests != [] ==> requests[|requests| - 1].now <= now
  }

  // Two stores a request at this time, or later, cannot tell apart
  ghost predicate AgreeFrom(c: Counters, d: Counters, now: real) {
    forall k :: Live(c, k, now) == Live(d, k, now)
  }

  lemma AgreeLater(c: Counters, d: Counters, now: real, later: real)
    requires AgreeFrom(c, d, now) && now <= later
    ensures AgreeFrom(c, d, later)
  {
    forall k
      ensures Live(c, k, later) == Live(d, k, later)
    {
      assert Live(c, k, now) == Live(d, k, now);
    }
  }

  lemma PruneAgrees(c: Counters, now: real, cap: Option<nat>)
    ensures AgreeFrom(c, Kept(c, now, cap), now) && AgreeFrom(Kept(c, now, cap), c, now)
  {
  }

  lemma AgreementJoins(a: Counters, b: Counters, c: Counters, now: real)
    requires AgreeFrom(a, b, now) && AgreeFrom(b, c, now)
    ensures AgreeFrom(a, c, now)
  {
    forall k
      ensures Live(a, k, now) == Live(c, k, now)
    {
      assert Live(a, k, now) == Live(b, k, now);
    }
  }

  lemma AgreeAfterWrite(c: Counters, d: Counters, now: real, key: string, entry: Entry)
    requires AgreeFrom(c, d, now)
    ensures AgreeFrom(c[key := entry], d[key := entry], now)
  {
    var c', d' := c[key := entry], d[key := entry];
    forall k
      ensures Live(c', k, now) == Live(d', k, now)
    {
      assert Live(c, k, now) == Live(d, k, now);
    }
  }

  lemma {:induction false} EnforcedAgrees(c: Counters, d: Counters, rules: seq<Rule>, now: real)
    requires AgreeFrom(c, d, now)
    ensures Enforced(c, rules, now).verdict == Enforced(d, rules, now).verdict
    ensures Enforced(c, rules, now).charges == Enforced(d, rules, now).charges
    ensures AgreeFrom(Enforced(c, rules, now).counters, Enforced(d, rules, now).counters, now)
    decreases |rules|
  {
    if rules != [] {
      var rule := rules[0];
      assert Live(c, rule.key, now) == Live(d, rule.key, now);
      var charge := ChargeFor(c, rule, now);
      var entry := Entry(charge.count, charge.deadline);
      AgreeAfterWrite(c, d, now, rule.key, entry);
      if charge.Passed() {
        EnforcedAgrees(c[rule.key := entry], d[rule.key := entry], rules[1..], now);
      }
    }
  }

  // Throwing expired counters away, at whatever size, changes no verdict, now or ever.
  lemma {:induction false} PruningIsInvisible(c: Counters, requests: seq<Request>, capA: Option<nat>, capB: Option<nat>,
                                              now: real)
    requires ClockRises(requests) && NotAfter(requests, now)
    ensures var a, b := Served(c, requests, capA), Served(c, requests, capB);
            a.verdicts == b.verdicts && a.charges == b.charges && AgreeFrom(a.counters, b.counters, now)
  {
    if requests != [] {
      var init, last := requests[..|requests| - 1], requests[|requests| - 1];
      PruningIsInvisible(c, init, capA, capB, last.now);
      ServeOneMore(Served(c, init, capA).counters, Served(c, init, capB).counters, last, capA, capB, now);
    }
  }

  lemma ServeOneMore(a: Counters, b: Counters, r: Request, capA: Option<nat>, capB: Option<nat>, now: real)
    requires AgreeFrom(a, b, r.now) && r.now <= now
    ensures var x, y := Enforced(Kept(a, r.now, capA), r.rules, r.now), Enforced(Kept(b, r.now, capB), r.rules, r.now);
            x.verdict == y.verdict && x.charges == y.charges && AgreeFrom(x.counters, y.counters, now)
  {
    var a', b' := Kept(a, r.now, capA), Kept(b, r.now, capB);
    PruneAgrees(a, r.now, capA);
    PruneAgrees(b, r.now, capB);
    AgreementJoins(a', a, b, r.now);
    AgreementJoins(a', b, b', r.now);
    EnforcedAgrees(a', b', r.rules, r.now);
    AgreeLater(Enforced(a', r.rules, r.now).counters, Enforced(b', r.rules, r.now).counters, r.now, now);
  }

  // ---------------------------------------------------------------- one key's charges

  function ForKey(charges: seq<Charge>, key: string): seq<Charge> {
    if charges == [] then [] else
      var rest := ForKey(charges[..|charges| - 1], key);
      if charges[|charges| - 1].rule.key == key then rest + [charges[|charges| - 1]] else rest
  }

  predicate Opens(e: Charge) {
    e.count == 1 && e.deadline == e.now + e.rule.window as real
  }

  // Charge by charge: within the window the count goes up by one and the deadline stays; after it, a new window.
  predicate IsChain(es: seq<Charge>) {
    && (es != [] ==> Opens(es[0]))
    && forall i :: 0 < i < |es| ==>
         && es[i - 1].now <= es[i].now
         && if es[i - 1].deadline <= es[i].now then Opens(es[i])
            else es[i].count == es[i - 1].count + 1 && es[i].deadline == es[i - 1].deadline
  }

  // The counters say of a key what its last charge left.
  predicate Tracks(c: Counters, key: string, past: seq<Charge>) {
    && (past == [] ==> key !in c)
    && (past != [] ==> key in c && c[key] == Entry(past[|past| - 1].count, past[|past| - 1].deadline))
  }

  predicate UpTo(past: seq<Charge>, now: real) {
    past != [] ==> past[|past| - 1].now <= now
  }

  lemma {:induction false} ForKeyConcat(a: seq<Charge>, b: seq<Charge>, key: string)
    ensures ForKey(a + b, key) == ForKey(a, key) + ForKey(b, key)
  {
    if b == [] {
      assert a + b == a;
    } else {
      assert (a + b)[..|a + b| - 1] == a + b[..|b| - 1];
      ForKeyConcat(a, b[..|b| - 1], key);
    }
  }

  // Past charges of a key that form a chain the counters are up to date with
  predicate Booked(c: Counters, key: string, past: seq<Charge>, now: real) {
    IsChain(past) && Tracks(c, key, past) && UpTo(past, now)
  }

  lemma ChargeIsBooked(c: Counters, rule: Rule, now: real, key: string, past: seq<Charge>)
    requires Booked(c, key, past, now)
    ensures var charge := ChargeFor(c, rule, now);
            Booked(c[rule.key := Entry(charge.count, charge.deadline)], key, past + ForKey([charge], key), now)
  {
    var charge := ChargeFor(c, rule, now);
    assert [charge][..0] == [];
    if rule.key != key {
      assert past + ForKey([charge], key) == past;
    } else {
      assert ForKey([charge], key) == [charge];
      ChainGrows(past, charge);
    }
  }

  predicate Follows(past: seq<Charge>, e: Charge) {
    if past == [] then Opens(e) else
      var last := past[|past| - 1];
      && last.now <= e.now
      && if last.deadline <= e.now then Opens(e) else e.count == last.count + 1 && e.deadline == last.deadline
  }

  lemma ChainGrows(past: seq<Charge>, e: Charge)
    requires IsChain(past) && Follows(past, e)
    ensures IsChain(past + [e])
  {
  }

  lemma {:induction false} EnforcedIsBooked(c: Counters, rules: seq<Rule>, now: real, key: string, past: seq<Charge>)
    requires Booked(c, key, past, now)
    ensures var out := Enforced(c, rules, now);
            Booked(out.counters, key, past + ForKey(out.charges, key), now)
    decreases |rules|
  {
    if rules == [] {
      assert past + ForKey([], key) == past;
    } else {
      var charge := ChargeFor(c, rules[0], now);
      var next := c[rules[0].key := Entry(charge.count, charge.deadline)];
      ChargeIsBooked(c, rules[0], now, key, past);
      if charge.Passed() {
        var rest := Enforced(next, rules[1..], now);
        EnforcedIsBooked(next, rules[1..], now, key, past + ForKey([charge], key));
        JoinForKey(past, [charge], rest.charges, key);
      }
    }
  }

  lemma JoinForKey(past: seq<Charge>, a: seq<Charge>, b: seq<Charge>, key: string)
    ensures (past + ForKey(a, key)) + ForKey(b, key) == past + ForKey(a + b, key)
  {
    ForKeyConcat(a, b, key);
  }

  lemma {:induction false} ServedIsBooked(requests: seq<Request>, key: string, now: real)
    requires ClockRises(requests) && NotAfter(requests, now)
    ensures var run := Served(map[], requests, None);
            Booked(run.counters, key, ForKey(run.charges, key), now)
  {
    if requests != [] {
      var init, last := requests[..|requests| - 1], requests[|requests| - 1];
      var before := Served(map[], init, None);
      ServedIsBooked(init, key, last.now);
      EnforcedIsBooked(before.counters, last.rules, last.now, key, ForKey(before.charges, key));
      ForKeyConcat(before.charges, Enforced(before.counters, last.rules, last.now).charges, key);
    }
  }

  // From empty counters, pruned or not, the charges of every key form one chain of windows.
  lemma ChargesFormChains(requests: seq<Request>, cap: Option<nat>, key: string)
    requires ClockRises(requests)
    ensures IsChain(ForKey(Served(map[], requests, cap).charges, key))
  {
    var now := if requests == [] then 0.0 else requests[|requests| - 1].now;
    PruningIsInvisible(map[], requests, cap, None, now);
    ServedIsBooked(requests, key, now);
  }

  // ---------------------------------------------------------------- what one window lets through

  predicate Under(es: seq<Charge>, rule: Rule) {
    forall i :: 0 <= i < |es| ==> es[i].rule == rule
  }

  // How many requests the window with this deadline let through
  function PassedIn(es: seq<Charge>, deadline: real): nat {
    if es == [] then 0 else
      var last := es[|es| - 1];
      PassedIn(es[..|es| - 1], deadline) + if last.deadline == deadline && last.Passed() then 1 else 0
  }

  // How many were let through from one moment up to another
  function PassedBetween(es: seq<Charge>, from: real, to: real): nat {
    if es == [] then 0 else
      var last := es[|es| - 1];
      PassedBetween(es[..|es| - 1], from, to) + if from <= last.now < to && last.Passed() then 1 else 0
  }

  function Min(a: int, b: int): int { if a <= b then a else b }

  lemma {:induction false} DeadlinesRise(es: seq<Charge>, rule: Rule, i: nat, j: nat)
    requires IsChain(es) && Under(es, rule) && rule.window >= 1 && i <= j < |es|
    ensures es[i].now <= es[j].now < es[j].deadline <= es[j].now + rule.window as real
    ensures es[j].deadline == es[i].deadline || es[j].deadline >= es[i].deadline + rule.window as real
    ensures es[j].deadline == es[i].deadline || es[i].deadline <= es[j].now
    ensures es[j].count >= 1
    decreases j
  {
    if i < j {
      DeadlinesRise(es, rule, i, j - 1);
    } else if j > 0 {
      DeadlinesRise(es, rule, j - 1, j - 1);
    }
  }

  lemma {:induction false} WindowCount(es: seq<Charge>, rule: Rule, deadline: real)
    requires IsChain(es) && Under(es, rule) && rule.window >= 1
    ensures PassedIn(es, deadline) <= Max(rule.limit, 0)
    ensures es != [] && deadline == es[|es| - 1].deadline ==>
              PassedIn(es, deadline) == Max(Min(rule.limit, es[|es| - 1].count), 0)
    ensures es != [] && deadline > es[|es| - 1].deadline ==> PassedIn(es, deadline) == 0
  {
    if es != [] {
      var last := |es| - 1;
      WindowCount(es[..last], rule, deadline);
      DeadlinesRise(es, rule, last, last);
      if last > 0 {
        DeadlinesRise(es, rule, last - 1, last);
      }
    }
  }

  predicate InWindows(es: seq<Charge>, from: real, to: real, d1: real, d2: real) {
    forall i :: 0 <= i < |es| && from <= es[i].now < to ==> es[i].deadline == d1 || es[i].deadline == d2
  }

  lemma {:induction false} SumOfWindows(es: seq<Charge>, from: real, to: real, d1: real, d2: real)
    requires InWindows(es, from, to, d1, d2)
    ensures PassedBetween(es, from, to) <= PassedIn(es, d1) + PassedIn(es, d2)
  {
    if es != [] {
      SumOfWindows(es[..|es| - 1], from, to, d1, d2);
    }
  }

  // An interval no longer than a window meets two windows at most.
  lemma TwoWindows(es: seq<Charge>, rule: Rule, from: real, first: nat, other: nat)
    requires IsChain(es) && Under(es, rule) && rule.window >= 1 && first < |es| && other < |es|
    requires from <= es[first].now && forall i :: 0 <= i < first ==> es[i].now < from
    requires from <= es[other].now < from + rule.window as real && es[other].deadline != es[first].deadline
    ensures InWindows(es, from, from + rule.window as real, es[first].deadline, es[other].deadline)
  {
    forall k | 0 <= k < |es| && from <= es[k].now < from + rule.window as real
      ensures es[k].deadline == es[first].deadline || es[k].deadline == es[other].deadline
    {
      DeadlinesRise(es, rule, first, first);
      DeadlinesRise(es, rule, first, k);
      DeadlinesRise(es, rule, first, other);
      if k < other {
        DeadlinesRise(es, rule, k, other);
      } else {
        DeadlinesRise(es, rule, other, k);
      }
    }
  }

  lemma {:induction false} FirstFrom(es: seq<Charge>, from: real) returns (first: nat)
    ensures first <= |es| && forall i :: 0 <= i < first ==> es[i].now < from
    ensures first < |es| ==> from <= es[first].now
  {
    if es == [] || es[0].now >= from {
      first := 0;
    } else {
      var later := FirstFrom(es[1..], from);
      first := later + 1;
    }
  }

  // A fixed window restarts wherever it is first hit, so a stretch as long as the window can see the end of one
  // and the start of the next, but never a third.
  lemma SlidingBound(es: seq<Charge>, rule: Rule, from: real)
    requires IsChain(es) && Under(es, rule) && rule.window >= 1
    ensures PassedBetween(es, from, from + rule.window as real) <= 2 * Max(rule.limit, 0)
  {
    var to := from + rule.window as real;
    var first := FirstFrom(es, from);
    var d1 := if first < |es| then es[first].deadline else 0.0;
    var d2 := d1;
    if !InWindows(es, from, to, d1, d1) {
      var other: nat :| other < |es| && from <= es[other].now < to && es[other].deadline != d1;
      d2 := es[other].deadline;
      TwoWindows(es, rule, from, first, other);
    }
    SumOfWindows(es, from, to, d1, d2);
    WindowCount(es, rule, d1);
    WindowCount(es, rule, d2);
  }

  // ---------------------------------------------------------------- what clients see

  predicate OneRulePerKey(requests: seq<Request>, rule: Rule) {
    forall i, r :: 0 <= i < |requests| && r in requests[i].rules && r.key == rule.key ==> r == rule
  }

  lemma {:induction false} EnforcedUnder(c: Counters, rules: seq<Rule>, now: real, rule: Rule)
    requires forall r :: r in rules && r.key == rule.key ==> r == rule
    ensures Under(ForKey(Enforced(c, rules, now).charges, rule.key), rule)
    decreases |rules|
  {
    if rules != [] {
      var charge := ChargeFor(c, rules[0], now);
      var next := c[rules[0].key := Entry(charge.count, charge.deadline)];
      assert [charge][..0] == [];
      if charge.Passed() {
        EnforcedUnder(next, rules[1..], now, rule);
        ForKeyConcat([charge], Enforced(next, rules[1..], now).charges, rule.key);
      }
    }
  }

  lemma {:induction false} ServedUnder(c: Counters, requests: seq<Request>, cap: Option<nat>, rule: Rule)
    requires OneRulePerKey(requests, rule)
    ensures Under(ForKey(Served(c, requests, cap).charges, rule.key), rule)
  {
    if requests != [] {
      var init, last := requests[..|requests| - 1], requests[|requests| - 1];
      var before := Served(c, init, cap);
      ServedUnder(c, init, cap, rule);
      EnforcedUnder(Kept(before.counters, last.now, cap), last.rules, last.now, rule);
      ForKeyConcat(before.charges, Enforced(Kept(before.counters, last.now, cap), last.rules, last.now).charges, rule.key);
    }
  }

  // Whatever else is asked for and however often the counters are pruned, a window lets at most the limit
  // through, and no stretch of one window's length more than twice the limit.
  lemma WindowsHold(requests: seq<Request>, cap: Option<nat>, rule: Rule, deadline: real, from: real)
    requires forall i, j :: 0 <= i < j < |requests| ==> requests[i].now <= requests[j].now
    requires forall i, r :: 0 <= i < |requests| && r in requests[i].rules && r.key == rule.key ==> r == rule
    requires rule.window >= 1
    ensures var es := ForKey(Served(map[], requests, cap).charges, rule.key);
            var limit := if rule.limit < 0 then 0 else rule.limit;
            && |set i | 0 <= i < |es| && es[i].deadline == deadline && es[i].count <= es[i].rule.limit| <= limit
            && |set i | 0 <= i < |es| && from <= es[i].now < from + rule.window as real && es[i].count <= es[i].rule.limit|
                 <= 2 * limit
  {
    var es := ForKey(Served(map[], requests, cap).charges, rule.key);
    ChargesFormChains(requests, cap, rule.key);
    ServedUnder(map[], requests, cap, rule);
    WindowCount(es, rule, deadline);
    SlidingBound(es, rule, from);
    PassedInIsSize(es, deadline);
    PassedBetweenIsSize(es, from, from + rule.window as real);
  }

  function PassedAt(es: seq<Charge>, deadline: real): set<int> {
    set i | 0 <= i < |es| && es[i].deadline == deadline && es[i].count <= es[i].rule.limit
  }

  lemma {:induction false} PassedInIsSize(es: seq<Charge>, deadline: real)
    ensures PassedIn(es, deadline) == |PassedAt(es, deadline)|
  {
    if es == [] {
      assert PassedAt(es, deadline) == {};
    } else {
      var last := |es| - 1;
      PassedInIsSize(es[..last], deadline);
      assert PassedAt(es, deadline) ==
          PassedAt(es[..last], deadline) + if es[last].deadline == deadline && es[last].Passed() then {last} else {};
    }
  }

  function PassedWithin(es: seq<Charge>, from: real, to: real): set<int> {
    set i | 0 <= i < |es| && from <= es[i].now < to && es[i].count <= es[i].rule.limit
  }

  lemma {:induction false} PassedBetweenIsSize(es: seq<Charge>, from: real, to: real)
    ensures PassedBetween(es, from, to) == |PassedWithin(es, from, to)|
  {
    if es == [] {
      assert PassedWithin(es, from, to) == {};
    } else {
      var last := |es| - 1;
      PassedBetweenIsSize(es[..last], from, to);
      assert PassedWithin(es, from, to) ==
          PassedWithin(es[..last], from, to) + if from <= es[last].now < to && es[last].Passed() then {last} else {};
    }
  }

  // Being refused changes nothing about when one is let in again: the deadline is the one the window opened with,
  // the advertised wait lies within the window, and a second more than it always suffices.
  lemma RefusalsDoNotExtend(es: seq<Charge>, rule: Rule, i: nat, j: nat)
    requires IsChain(es) && Under(es, rule) && rule.window >= 1 && i < j < |es| && !es[i].Passed()
    ensures 1 <= RetryAfter(es[i].deadline, es[i].now) <= rule.window
    ensures es[j].now < es[i].deadline ==> es[j].deadline == es[i].deadline && !es[j].Passed()
    ensures es[j].now >= es[i].now + RetryAfter(es[i].deadline, es[i].now) as real + 1.0 ==>
              es[j].deadline > es[i].deadline
  {
    DeadlinesRise(es, rule, i, i);
    DeadlinesRise(es, rule, i, j);
    if es[j].now < es[i].deadline {
      SameWindowCounts(es, rule, i, j);
    }
  }

  lemma {:induction false} SameWindowCounts(es: seq<Charge>, rule: Rule, i: nat, j: nat)
    requires IsChain(es) && Under(es, rule) && rule.window >= 1 && i <= j < |es| && es[j].now < es[i].deadline
    ensures es[j].deadline == es[i].deadline && es[j].count == es[i].count + (j - i)
  {
    if i < j {
      DeadlinesRise(es, rule, j - 1, j);
      SameWindowCounts(es, rule, i, j - 1);
    }
  }

  // The first request in a new window is let through unless nothing ever is.
  lemma NewWindowLetsIn(es: seq<Charge>, rule: Rule, i: nat)
    requires IsChain(es) && Under(es, rule) && rule.window >= 1 && rule.limit >= 1 && i < |es|
    requires i == 0 || es[i - 1].deadline <= es[i].now
    ensures es[i].Passed() && es[i].deadline == es[i].now + rule.window as real
  {
  }

  // With a window of zero seconds or less every charge opens a new one: nothing is ever limited.
  lemma {:induction false} NoWindowNoLimit(es: seq<Charge>, rule: Rule, i: nat)
    requires IsChain(es) && Under(es, rule) && rule.window <= 0 && i < |es|
    ensures es[i].count == 1 && es[i].deadline <= es[i].now
  {
    if i > 0 {
      NoWindowNoLimit(es, rule, i - 1);
    }
  }

  // ---------------------------------------------------------------- the Redis script

  datatype RedisOutcome = RedisOutcome(counters: Counters, refused: bool, charges: seq<Charge>)

  // Redis drops a key once its deadline has passed; at the deadline itself the key still counts.
  function RedisLive(c: Counters, key: string, now: real): Option<Entry> {
    if key in c && c[key].deadline >= now then Some(c[key]) else None
  }

  function RedisChargeFor(c: Counters, rule: Rule, now: real): Charge {
    match RedisLive(c, rule.key, now)
    case Some(e) => Charge(rule, now, e.count + 1, e.deadline)
    case None => Charge(rule, now, 1, now + rule.window as real)
  }

  // INCR counts from the live value or from nothing; EXPIRE is sent by whoever counts one, and an expiry of zero
  // seconds or less deletes the key.
  function RedisStore(c: Counters, rule: Rule, now: real): Counters {
    var charge := RedisChargeFor(c, rule, now);
    if charge.count == 1 && rule.window <= 0 then c - {rule.key}
    else c[rule.key := Entry(charge.count, charge.deadline)]
  }

  function RedisEnforced(c: Counters, rules: seq<Rule>, now: real): RedisOutcome
    decreases |rules|
  {
    if rules == [] then RedisOutcome(c, false, []) else
      var charge := RedisChargeFor(c, rules[0], now);
      var next := RedisStore(c, rules[0], now);
      if !charge.Passed() then RedisOutcome(next, true, [charge])
      else
        var rest := RedisEnforced(next, rules[1..], now);
        rest.(charges := [charge] + rest.charges)
  }

  predicate Counting(c: Counters) {
    forall k :: k in c ==> c[k].count >= 1
  }

  predicate AtDeadline(c: Counters, key: string, now: real) {
    key in c && c[key].deadline == now
  }

  // One rule is charged alike exactly off the deadline: at it, Redis counts on in the old window and the fallback
  // opens a new one.
  lemma ChargedAlikeExactlyWhen(c: Counters, d: Counters, rule: Rule, now: real)
    requires AgreeFrom(c, d, now) && Counting(d)
    ensures ChargeFor(c, rule, now) == RedisChargeFor(d, rule, now) <==> !AtDeadline(d, rule.key, now)
  {
    assert Live(c, rule.key, now) == Live(d, rule.key, now);
  }

  lemma RedisKeepsPace(c: Counters, d: Counters, rule: Rule, now: real)
    requires AgreeFrom(c, d, now) && Counting(c) && Counting(d) && !AtDeadline(d, rule.key, now)
    ensures ChargeFor(c, rule, now) == RedisChargeFor(d, rule, now)
    ensures var charge := ChargeFor(c, rule, now);
            var next := c[rule.key := Entry(charge.count, charge.deadline)];
            && AgreeFrom(next, RedisStore(d, rule, now), now) && Counting(next) && Counting(RedisStore(d, rule, now))
            && forall k :: AtDeadline(RedisStore(d, rule, now), k, now) ==> AtDeadline(d, k, now)
  {
    ChargedAlikeExactlyWhen(c, d, rule, now);
    var charge := ChargeFor(c, rule, now);
    var c', d' := c[rule.key := Entry(charge.count, charge.deadline)], RedisStore(d, rule, now);
    forall k
      ensures Live(c', k, now) == Live(d', k, now)
    {
      assert Live(c, k, now) == Live(d, k, now);
    }
  }

  // Off the deadlines, the fallback counts and decides exactly as the script does, whatever the windows, and goes on
  // doing so.
  lemma {:induction false} FallbackAgreesWithRedis(c: Counters, d: Counters, rules: seq<Rule>, now: real)
    requires AgreeFrom(c, d, now) && Counting(c) && Counting(d)
    requires forall r :: r in rules ==> !AtDeadline(d, r.key, now)
    ensures var memory, redis := Enforced(c, rules, now), RedisEnforced(d, rules, now);
            && memory.charges == redis.charges
            && (memory.verdict.Refused? <==> redis.refused)
            && AgreeFrom(memory.counters, redis.counters, now)
            && Counting(memory.counters) && Counting(redis.counters)
    decreases |rules|
  {
    if rules != [] {
      RedisKeepsPace(c, d, rules[0], now);
      var charge := ChargeFor(c, rules[0], now);
      if charge.Passed() {
        FallbackAgreesWithRedis(c[rules[0].key := Entry(charge.count, charge.deadline)],
                                RedisStore(d, rules[0], now), rules[1..], now);
      }
    }
  }

  // At the deadline of a window that has used up its limit, the fallback lets a request in and the script does not.
  lemma DeadlineDivides(c: Counters, d: Counters, rule: Rule, now: real)
    requires rule.limit >= 1 && c == d == map[rule.key := Entry(rule.limit, now)]
    ensures AgreeFrom(c, d, now) && Counting(c) && Counting(d)
    ensures Enforced(c, [rule], now).verdict == Allowed && RedisEnforced(d, [rule], now).refused
  {
    assert Enforced(c[rule.key := Entry(1, now + rule.window as real)], [], now).verdict == Allowed;
  }
}
