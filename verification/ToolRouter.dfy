/** One run of the tool router: the guard on repeated calls, the context it keeps, and pending confirmations. */
module ToolRouter {
  import opened Options

  datatype ToolState = Completed | RequiresConfirmation | OtherState(name: string)

  datatype Trace = Trace(id: string, skill: string, arguments: map<string, string>, state: ToolState)

  datatype ResultEntry = ResultEntry(id: string, skill: string, state: ToolState)

  // A note is the anti-loop warning about a skill, or whatever the caller brought along.
  datatype Note = LoopWarning(skill: string, calls: nat) | Other(text: string, mentionsWarning: bool)

  datatype Context = Context(results: seq<ResultEntry>, notes: seq<Note>, chainDepth: nat, pending: Option<string>)

  const MAX_DUPLICATE_CALLS := 3
  const KEPT_RESULTS := 10

  // ---------------------------------------------------------------- what makes two calls the same

  datatype CallKey = CallKey(skill: string, tables: map<string, string>)

  function KeyParams(arguments: map<string, string>): map<string, string> {
    map k | k in arguments && (k == "tableId" || k == "table_id") :: arguments[k]
  }

  function KeyOf(t: Trace): CallKey {
    CallKey(t.skill, KeyParams(t.arguments))
  }

  function Count(traces: seq<Trace>, key: CallKey): nat {
    if traces == [] then 0 else
      Count(traces[..|traces| - 1], key) + if KeyOf(traces[|traces| - 1]) == key then 1 else 0
  }

  // Two calls are the same exactly if they are of one skill and, for each way to name a table, both name the same or
  // neither names one; no other argument matters.
  lemma SameCallExactlyWhen(t: Trace, u: Trace)
    ensures KeyOf(t) == KeyOf(u) <==>
              t.skill == u.skill && forall k :: k == "tableId" || k == "table_id" ==>
                if k in t.arguments then k in u.arguments && t.arguments[k] == u.arguments[k] else k !in u.arguments
  {
    forall k
      ensures k in KeyParams(t.arguments) <==> k in t.arguments && (k == "tableId" || k == "table_id")
      ensures k in KeyParams(u.arguments) <==> k in u.arguments && (k == "tableId" || k == "table_id")
    {
    }
    if KeyOf(t) == KeyOf(u) {
      forall k | k == "tableId" || k == "table_id"
        ensures if k in t.arguments then k in u.arguments && t.arguments[k] == u.arguments[k] else k !in u.arguments
      {
        assert k in KeyParams(t.arguments) <==> k in KeyParams(u.arguments);
        assert k in KeyParams(t.arguments) ==> KeyParams(t.arguments)[k] == KeyParams(u.arguments)[k];
      }
    } else if t.skill == u.skill {
      assert KeyParams(t.arguments) != KeyParams(u.arguments);
    }
  }

  function WithKey(traces: seq<Trace>, key: CallKey): (r: set<nat>)
  {
    set i: nat | i < |traces| && KeyOf(traces[i]) == key
  }

  lemma {:induction false} CountIsSize(traces: seq<Trace>, key: CallKey)
    ensures Count(traces, key) == |WithKey(traces, key)|
  {
    if traces == [] {
      assert WithKey(traces, key) == {};
    } else {
      var last := |traces| - 1;
      CountIsSize(traces[..last], key);
      assert WithKey(traces, key) == WithKey(traces[..last], key) + if KeyOf(traces[last]) == key then {last} else {};
    }
  }

  // The number of earlier calls the guard goes by
  lemma CountExactly(traces: seq<Trace>, skill: string, arguments: map<string, string>)
    ensures Count(traces, CallKey(skill, KeyParams(arguments))) ==
              |set i: nat | i < |traces| && traces[i].skill == skill &&
                 (forall k :: k == "tableId" || k == "table_id" ==>
                    if k in arguments then k in traces[i].arguments && traces[i].arguments[k] == arguments[k]
                    else k !in traces[i].arguments)|
  {
    var key := CallKey(skill, KeyParams(arguments));
    CountIsSize(traces, key);
    var same := set i: nat | i < |traces| && traces[i].skill == skill &&
                  (forall k :: k == "tableId" || k == "table_id" ==>
                     if k in arguments then k in traces[i].arguments && traces[i].arguments[k] == arguments[k]
                     else k !in traces[i].arguments);
    forall i: nat | i < |traces|
      ensures i in same <==> i in WithKey(traces, key)
    {
      SameCallExactlyWhen(Trace("", skill, arguments, Completed), traces[i]);
    }
    assert same == WithKey(traces, key);
  }

  // ---------------------------------------------------------------- the context

  function LastOf<T>(xs: seq<T>, n: nat): seq<T> {
    if |xs| <= n then xs else xs[|xs| - n..]
  }

  function EntryOf(t: Trace): ResultEntry {
    ResultEntry(t.id, t.skill, t.state)
  }

  function CompletedCalls(results: seq<ResultEntry>, skill: string): nat {
    if results == [] then 0 else
      var last := results[|results| - 1];
      CompletedCalls(results[..|results| - 1], skill) + if last.skill == skill && last.state == Completed then 1 else 0
  }

  predicate Warns(n: Note) {
    n.LoopWarning? || n.mentionsWarning
  }

  predicate Warned(notes: seq<Note>) {
    exists i :: 0 <= i < |notes| && Warns(notes[i])
  }

  function WithResult(c: Context, t: Trace): Context {
    var results := c.results + [EntryOf(t)];
    var calls := CompletedCalls(results, t.skill);
    Context(LastOf(results, KEPT_RESULTS),
            if calls >= MAX_DUPLICATE_CALLS && !Warned(c.notes) then [LoopWarning(t.skill, calls)] + c.notes else c.notes,
            c.chainDepth + 1,
            c.pending)
  }

  function Recorded(c: Context, t: Trace): Context {
    var next := WithResult(c, t);
    if t.state == RequiresConfirmation then next.(pending := Some(t.id)) else next
  }

  function CompleteAt(results: seq<ResultEntry>, skill: string): set<nat> {
    set i: nat | i < |results| && results[i].skill == skill && results[i].state == Completed
  }

  lemma {:induction false} CompletedIsSize(results: seq<ResultEntry>, skill: string)
    ensures CompletedCalls(results, skill) == |CompleteAt(results, skill)|
  {
    if results == [] {
      assert CompleteAt(results, skill) == {};
    } else {
      var last := |results| - 1;
      CompletedIsSize(results[..last], skill);
      assert CompleteAt(results, skill) == CompleteAt(results[..last], skill) +
          if results[last].skill == skill && results[last].state == Completed then {last} else {};
    }
  }

  // What one call adds to the context: its result, of which the last ten are kept, one more to the depth, itself as
  // pending if it asks for confirmation, and, once three results of its skill are complete, a warning ahead of all
  // notes unless one of them warns already.
  lemma RecordedSays(c: Context, t: Trace)
    ensures var all := c.results + [ResultEntry(t.id, t.skill, t.state)];
            Recorded(c, t).results == if |all| <= 10 then all else all[|all| - 10..]
    ensures var all := c.results + [ResultEntry(t.id, t.skill, t.state)];
            var complete := |set i: nat | i < |all| && all[i].skill == t.skill && all[i].state == Completed|;
            Recorded(c, t).notes ==
              if complete >= 3 && forall n :: n in c.notes ==> n.Other? && !n.mentionsWarning
              then [LoopWarning(t.skill, complete)] + c.notes else c.notes
    ensures Recorded(c, t).chainDepth == c.chainDepth + 1
    ensures Recorded(c, t).pending == if t.state == RequiresConfirmation then Some(t.id) else c.pending
  {
    CompletedIsSize(c.results + [EntryOf(t)], t.skill);
    assert forall i :: 0 <= i < |c.notes| ==> c.notes[i] in c.notes;
  }

  // ---------------------------------------------------------------- the run itself

  datatype Reply = StopRepeating | NeedsConfirmation | Finished

  datatype RunStatus = ReportsConfirmation | Reports(status: string)

  class AgentRun {
    var traces: seq<Trace>
    var context: Context

    constructor (start: Context)
      ensures traces == [] && context == start
    {
      traces, context := [], start;
    }

    method CountPreviousCalls(skill: string, arguments: map<string, string>) returns (count: nat)
      ensures count == |set i: nat | i < |traces| && traces[i].skill == skill &&
                           (forall k :: k == "tableId" || k == "table_id" ==>
                              if k in arguments then k in traces[i].arguments && traces[i].arguments[k] == arguments[k]
                              else k !in traces[i].arguments)|
      ensures count == Count(traces, CallKey(skill, KeyParams(arguments)))
    {
      CountExactly(traces, skill, arguments);
      count := 0;
      for i := 0 to |traces|
        invariant count == Count(traces[..i], CallKey(skill, KeyParams(arguments)))
      {
        assert traces[..i + 1][..i] == traces[..i];
        if traces[i].skill != skill {
          continue;
        }
        if KeyParams(traces[i].arguments) == KeyParams(arguments) {
          count := count + 1;
        }
      }
      assert traces[..|traces|] == traces;
    }

    method AppendToolResult(t: Trace)
      modifies this`context
      ensures context == WithResult(old(context), t)
    {
      var results := context.results + [EntryOf(t)];
      var calls := 0;
      for i := 0 to |results|
        invariant calls == CompletedCalls(results[..i], t.skill)
      {
        assert results[..i + 1][..i] == results[..i];
        if results[i].skill == t.skill && results[i].state == Completed {
          calls := calls + 1;
        }
      }
      assert results[..|results|] == results;
      var warned := false;
      for i := 0 to |context.notes|
        invariant warned <==> Warned(context.notes[..i])
      {
        assert forall j :: 0 <= j < i ==> context.notes[..i + 1][j] == context.notes[..i][j];
        if Warns(context.notes[i]) {
          warned := true;
          assert Warns(context.notes[..i + 1][i]);
        }
      }
      assert context.notes[..|context.notes|] == context.notes;
      var notes := context.notes;
      if calls >= MAX_DUPLICATE_CALLS && !warned {
        notes := [LoopWarning(t.skill, calls)] + notes;
      }
      context := Context(LastOf(results, KEPT_RESULTS), notes, context.chainDepth + 1, context.pending);
    }

    // One call with the state the executor will report for it. It is refused exactly if three earlier ones were of
    // the same skill and on the same table; a call on a table the skill has not been used on is never refused.
    method InvokeTool(id: string, skill: string, arguments: map<string, string>, state: ToolState) returns (reply: Reply)
      modifies this
      ensures reply.StopRepeating? <==>
                |set i: nat | i < |old(traces)| && old(traces)[i].skill == skill &&
                   (forall k :: k == "tableId" || k == "table_id" ==>
                      if k in arguments then k in old(traces)[i].arguments && old(traces)[i].arguments[k] == arguments[k]
                      else k !in old(traces)[i].arguments)| >= 3
      ensures (forall t :: t in old(traces) && t.skill == skill ==>
                 if "tableId" in arguments
                 then "tableId" !in t.arguments || t.arguments["tableId"] != arguments["tableId"]
                 else "tableId" in t.arguments) ==>
                !reply.StopRepeating?
      ensures reply.StopRepeating? ==> traces == old(traces) && context == old(context)
      ensures !reply.StopRepeating? ==>
                var t := Trace(id, skill, arguments, state);
                traces == old(traces) + [t] && context == Recorded(old(context), t)
      ensures !reply.StopRepeating? ==>
                && (reply.NeedsConfirmation? <==> state == RequiresConfirmation)
                && context.pending == if state == RequiresConfirmation then Some(id) else old(context).pending
    {
      CountExactly(traces, skill, arguments);
      var previous := CountPreviousCalls(skill, arguments);
      if previous >= MAX_DUPLICATE_CALLS {
        return StopRepeating;
      }
      var t := Trace(id, skill, arguments, state);
      traces := traces + [t];
      AppendToolResult(t);
      if state == RequiresConfirmation {
        context := context.(pending := Some(id));
        return NeedsConfirmation;
      }
      return Finished;
    }

    method Finish(structured: string) returns (status: RunStatus)
      ensures status.ReportsConfirmation? <==> context.pending.Some?
      ensures context.pending.None? ==> status == Reports(structured)
    {
      status := Reports(structured);
      if context.pending.Some? {
        status := ReportsConfirmation;
      }
    }
  }

  // ---------------------------------------------------------------- overlapping calls

  // A call awaits its executor between the guard and the trace, so several may be past the guard at once.
  datatype State = State(traces: seq<Trace>, context: Context, flying: map<nat, Trace>)

  datatype Event =
    | Start(id: nat, call: Trace)
    | Report(id: nat, state: ToolState)
    | Raise(id: nat)    // the executor raises: no trace is kept

  predicate Enabled(s: State, e: Event, width: nat) {
    match e
    case Start(id, call) => id !in s.flying && |s.flying| < width && Count(s.traces, KeyOf(call)) < MAX_DUPLICATE_CALLS
    case Report(id, _) => id in s.flying
    case Raise(id) => id in s.flying
  }

  function Apply(s: State, e: Event): State
    requires e.Start? || e.id in s.flying
  {
    match e
    case Start(id, call) => s.(flying := s.flying[id := call])
    case Report(id, state) =>
      var t := s.flying[id].(state := state);
      State(s.traces + [t], Recorded(s.context, t), s.flying - {id})
    case Raise(id) => s.(flying := s.flying - {id})
  }

  function Opening(c: Context): State {
    State([], c, map[])
  }

  predicate Run(c: Context, es: seq<Event>, width: nat)
    decreases |es|, 0
  {
    es == [] ||
    (Run(c, es[..|es| - 1], width) && Enabled(Exec(c, es[..|es| - 1], width), es[|es| - 1], width))
  }

  function Exec(c: Context, es: seq<Event>, width: nat): State
    requires Run(c, es, width)
    decreases |es|, 1
  {
    if es == [] then Opening(c) else Apply(Exec(c, es[..|es| - 1], width), es[|es| - 1])
  }

  function FlyingFor(s: State, key: CallKey): set<nat> {
    set id | id in s.flying && KeyOf(s.flying[id]) == key
  }

  // Calls made plus calls under way, for one key
  function Load(s: State, key: CallKey): nat {
    Count(s.traces, key) + |FlyingFor(s, key)|
  }

  ghost predicate Bounded(s: State, width: nat) {
    |s.flying| <= width && forall key :: Load(s, key) <= MAX_DUPLICATE_CALLS - 1 + width
  }

  lemma FlyingMore(s: State, s': State, id: nat, call: Trace, key: CallKey)
    requires id !in s.flying && s'.flying == s.flying[id := call]
    ensures |s'.flying| == |s.flying| + 1
    ensures |FlyingFor(s', key)| == |FlyingFor(s, key)| + if KeyOf(call) == key then 1 else 0
  {
    assert s'.flying.Keys == s.flying.Keys + {id};
    if KeyOf(call) == key {
      assert FlyingFor(s', key) == FlyingFor(s, key) + {id};
    } else {
      assert FlyingFor(s', key) == FlyingFor(s, key);
    }
  }

  lemma FlyingLess(s: State, s': State, id: nat, key: CallKey)
    requires id in s.flying && s'.flying == s.flying - {id}
    ensures |s'.flying| == |s.flying| - 1
    ensures |FlyingFor(s', key)| == |FlyingFor(s, key)| - if KeyOf(s.flying[id]) == key then 1 else 0
  {
    assert s'.flying.Keys == s.flying.Keys - {id};
    assert FlyingFor(s', key) == FlyingFor(s, key) - {id};
  }

  lemma FlyingAmongAll(s: State, key: CallKey)
    ensures |FlyingFor(s, key)| <= |s.flying|
  {
    SubsetSize(FlyingFor(s, key), s.flying.Keys);
  }

  lemma {:induction false} SubsetSize(a: set<nat>, b: set<nat>)
    requires a <= b
    ensures |a| <= |b|
  {
    if a != {} {
      var x :| x in a;
      SubsetSize(a - {x}, b - {x});
    }
  }

  lemma StepKeepsBound(s: State, e: Event, width: nat)
    requires Bounded(s, width) && Enabled(s, e, width)
    ensures Bounded(Apply(s, e), width)
  {
    var s' := Apply(s, e);
    forall key
      ensures Load(s', key) <= MAX_DUPLICATE_CALLS - 1 + width && |s'.flying| <= width
    {
      assert Load(s, key) <= MAX_DUPLICATE_CALLS - 1 + width;
      FlyingAmongAll(s', key);
      match e
      case Start(id, call) => FlyingMore(s, s', id, call, key);
      case Report(id, _) =>
        FlyingLess(s, s', id, key);
        assert s'.traces[..|s.traces|] == s.traces;
      case Raise(id) => FlyingLess(s, s', id, key);
    }
  }

  lemma {:induction false} RunKeepsBound(c: Context, es: seq<Event>, width: nat)
    requires Run(c, es, width)
    ensures Bounded(Exec(c, es, width), width)
  {
    if es == [] {
      forall k
        ensures Load(Opening(c), k) == 0
      {
        assert FlyingFor(Opening(c), k) == {};
      }
    } else {
      RunKeepsBound(c, es[..|es| - 1], width);
      StepKeepsBound(Exec(c, es[..|es| - 1], width), es[|es| - 1], width);
    }
  }

  // With at most so many calls under way at once, the guard lets two plus that many through per key, and no more:
  // three if calls come one by one.
  lemma CallsPerKey(c: Context, es: seq<Event>, width: nat, key: CallKey)
    requires Run(c, es, width)
    ensures Count(Exec(c, es, width).traces, key) <= MAX_DUPLICATE_CALLS - 1 + width
    ensures width <= 1 ==> Count(Exec(c, es, width).traces, key) <= MAX_DUPLICATE_CALLS
  {
    RunKeepsBound(c, es, width);
    assert Load(Exec(c, es, width), key) <= MAX_DUPLICATE_CALLS - 1 + width;
  }

  // ---------------------------------------------------------------- the total

  function Without(traces: seq<Trace>, key: CallKey): seq<Trace> {
    if traces == [] then [] else
      var rest := Without(traces[..|traces| - 1], key);
      if KeyOf(traces[|traces| - 1]) == key then rest else rest + [traces[|traces| - 1]]
  }

  lemma {:induction false} WithoutCounts(traces: seq<Trace>, key: CallKey, other: CallKey)
    ensures |traces| == |Without(traces, key)| + Count(traces, key)
    ensures Count(Without(traces, key), other) == if other == key then 0 else Count(traces, other)
    ensures forall t :: t in Without(traces, key) ==> t in traces && KeyOf(t) != key
  {
    if traces != [] {
      var last := |traces| - 1;
      WithoutCounts(traces[..last], key, other);
      var rest := Without(traces[..last], key);
      assert (rest + [traces[last]])[..|rest|] == rest;
    }
  }

  lemma OneMoreTimes(bound: nat, n: nat, m: nat)
    requires m == n + 1
    ensures bound * m == bound * n + bound
  {
  }

  lemma {:induction false} SumOverKeys(traces: seq<Trace>, keys: set<CallKey>, bound: nat)
    requires forall t :: t in traces ==> KeyOf(t) in keys
    requires forall key :: key in keys ==> Count(traces, key) <= bound
    ensures |traces| <= bound * |keys|
    decreases |keys|
  {
    if traces == [] {
    } else {
      var key := KeyOf(traces[0]);
      forall other
        ensures other in keys - {key} ==> Count(Without(traces, key), other) <= bound
      {
        WithoutCounts(traces, key, other);
      }
      WithoutCounts(traces, key, key);
      SumOverKeys(Without(traces, key), keys - {key}, bound);
      OneMoreTimes(bound, |keys - {key}|, |keys|);
    }
  }

  function KeysOf(traces: seq<Trace>): (r: set<CallKey>)
    ensures forall t :: t in traces ==> KeyOf(t) in r
  {
    set t | t in traces :: KeyOf(t)
  }

  // So a run cannot loop: the calls it makes are bounded by the different calls it makes.
  lemma CallsInAll(c: Context, es: seq<Event>, width: nat)
    requires Run(c, es, width)
    ensures var traces := Exec(c, es, width).traces;
            |traces| <= (MAX_DUPLICATE_CALLS - 1 + width) * |KeysOf(traces)|
  {
    var traces := Exec(c, es, width).traces;
    forall key
      ensures Count(traces, key) <= MAX_DUPLICATE_CALLS - 1 + width
    {
      CallsPerKey(c, es, width, key);
    }
    SumOverKeys(traces, KeysOf(traces), MAX_DUPLICATE_CALLS - 1 + width);
  }

  // ---------------------------------------------------------------- the bound is met

  lemma OneMore(c: Context, es: seq<Event>, e: Event, width: nat)
    requires Run(c, es, width) && Enabled(Exec(c, es, width), e, width)
    ensures Run(c, es + [e], width) && Exec(c, es + [e], width) == Apply(Exec(c, es, width), e)
  {
    assert (es + [e])[..|es|] == es;
  }

  // Of calls started together, those from one number up to another have not been reported.
  predicate InFlight(s: State, call: Trace, from: nat, to: nat) {
    && s.flying.Keys == Numbers(from, to)
    && (forall id :: id in s.flying ==> s.flying[id] == call)
  }

  function Numbers(from: nat, to: nat): (r: set<nat>)
    ensures forall id: nat :: id in r <==> from <= id < to
  {
    if to <= from then {} else Numbers(from, to - 1) + {to - 1}
  }

  lemma StartNext(s: State, call: Trace, n: nat)
    requires InFlight(s, call, 0, n) && |s.flying| == n
    ensures n !in s.flying && InFlight(Apply(s, Start(n, call)), call, 0, n + 1)
    ensures |Apply(s, Start(n, call)).flying| == n + 1
  {
  }

  lemma {:induction false} StartAll(c: Context, es: seq<Event>, call: Trace, n: nat, width: nat)
    returns (more: seq<Event>)
    requires Run(c, es, width) && n <= width
    requires Exec(c, es, width).flying == map[] && Count(Exec(c, es, width).traces, KeyOf(call)) < MAX_DUPLICATE_CALLS
    ensures Run(c, more, width) && Exec(c, more, width).traces == Exec(c, es, width).traces
    ensures InFlight(Exec(c, more, width), call, 0, n) && |Exec(c, more, width).flying| == n
  {
    if n == 0 {
      more := es;
    } else {
      more := StartAll(c, es, call, n - 1, width);
      StartNext(Exec(c, more, width), call, n - 1);
      OneMore(c, more, Start(n - 1, call), width);
      more := more + [Start(n - 1, call)];
    }
  }

  lemma ReportNext(s: State, call: Trace, from: nat, to: nat)
    requires InFlight(s, call, from, to) && from < to
    ensures var s' := Apply(s, Report(from, Completed));
            InFlight(s', call, from + 1, to) && Count(s'.traces, KeyOf(call)) == Count(s.traces, KeyOf(call)) + 1
  {
    var t := call.(state := Completed);
    assert (s.traces + [t])[..|s.traces|] == s.traces;
  }

  lemma {:induction false} ReportAll(c: Context, es: seq<Event>, call: Trace, total: nat, n: nat, width: nat)
    returns (more: seq<Event>)
    requires Run(c, es, width) && InFlight(Exec(c, es, width), call, 0, total) && n <= total
    ensures Run(c, more, width) && InFlight(Exec(c, more, width), call, n, total)
    ensures Count(Exec(c, more, width).traces, KeyOf(call)) == Count(Exec(c, es, width).traces, KeyOf(call)) + n
  {
    if n == 0 {
      more := es;
    } else {
      more := ReportAll(c, es, call, total, n - 1, width);
      more := ReportOne(c, more, call, n - 1, total, width);
    }
  }

  lemma ReportOne(c: Context, es: seq<Event>, call: Trace, from: nat, to: nat, width: nat) returns (more: seq<Event>)
    requires Run(c, es, width) && InFlight(Exec(c, es, width), call, from, to) && from < to
    ensures Run(c, more, width) && InFlight(Exec(c, more, width), call, from + 1, to)
    ensures Count(Exec(c, more, width).traces, KeyOf(call)) == Count(Exec(c, es, width).traces, KeyOf(call)) + 1
  {
    more := es + [Report(from, Completed)];
    ReportNext(Exec(c, es, width), call, from, to);
    OneMore(c, es, Report(from, Completed), width);
  }

  // So many equal calls, started together and then reported
  lemma Together(c: Context, es: seq<Event>, call: Trace, n: nat, width: nat) returns (more: seq<Event>)
    requires Run(c, es, width) && n <= width
    requires Exec(c, es, width).flying == map[] && Count(Exec(c, es, width).traces, KeyOf(call)) < MAX_DUPLICATE_CALLS
    ensures Run(c, more, width) && Exec(c, more, width).flying == map[]
    ensures Count(Exec(c, more, width).traces, KeyOf(call)) == Count(Exec(c, es, width).traces, KeyOf(call)) + n
  {
    more := StartAll(c, es, call, n, width);
    more := ReportAll(c, more, call, n, n, width);
    assert Exec(c, more, width).flying.Keys == {};
  }

  // With that many calls allowed at once the count really gets there, whatever the call.
  lemma BoundIsMet(c: Context, call: Trace, width: nat) returns (es: seq<Event>)
    requires width >= 1
    ensures Run(c, es, width)
    ensures Count(Exec(c, es, width).traces, KeyOf(call)) == MAX_DUPLICATE_CALLS - 1 + width
  {
    es := Together(c, [], call, 1, width);
    es := Together(c, es, call, 1, width);
    es := Together(c, es, call, width, width);
  }

  // ---------------------------------------------------------------- the context over a run

  function ContextAfter(c: Context, traces: seq<Trace>): Context {
    if traces == [] then c else Recorded(ContextAfter(c, traces[..|traces| - 1]), traces[|traces| - 1])
  }

  lemma {:induction false} ContextFollowsTraces(c: Context, es: seq<Event>, width: nat)
    requires Run(c, es, width)
    ensures Exec(c, es, width).context == ContextAfter(c, Exec(c, es, width).traces)
  {
    if es != [] {
      var before, e := Exec(c, es[..|es| - 1], width), es[|es| - 1];
      ContextFollowsTraces(c, es[..|es| - 1], width);
      if e.Report? {
        assert Apply(before, e).traces[..|before.traces|] == before.traces;
      }
    }
  }

  function Entries(traces: seq<Trace>): seq<ResultEntry> {
    seq(|traces|, i requires 0 <= i < |traces| => EntryOf(traces[i]))
  }

  // The last call that asked for confirmation, or what was pending before
  function LastAsked(traces: seq<Trace>, before: Option<string>): Option<string> {
    if traces == [] then before
    else if traces[|traces| - 1].state == RequiresConfirmation then Some(traces[|traces| - 1].id)
    else LastAsked(traces[..|traces| - 1], before)
  }

  predicate OneWarningAtMost(before: seq<Note>, after: seq<Note>) {
    || after == before
    || (!Warned(before) && |after| == |before| + 1 && after[0].LoopWarning? && after[1..] == before)
  }

  lemma ResultsStep(now: Context, before: seq<ResultEntry>, t: Trace)
    requires now.results == LastOf(before, KEPT_RESULTS)
    ensures Recorded(now, t).results == LastOf(before + [EntryOf(t)], KEPT_RESULTS)
  {
    LastOfLast(before, EntryOf(t), KEPT_RESULTS);
  }

  lemma EntriesOneMore(before: seq<ResultEntry>, traces: seq<Trace>)
    requires traces != []
    ensures before + Entries(traces) == (before + Entries(traces[..|traces| - 1])) + [EntryOf(traces[|traces| - 1])]
  {
  }

  lemma {:induction false} ResultsAfter(c: Context, traces: seq<Trace>)
    requires |c.results| <= KEPT_RESULTS
    ensures ContextAfter(c, traces).results == LastOf(c.results + Entries(traces), KEPT_RESULTS)
  {
    if traces == [] {
      assert c.results + Entries(traces) == c.results;
    } else {
      var last := |traces| - 1;
      ResultsAfter(c, traces[..last]);
      ResultsStep(ContextAfter(c, traces[..last]), c.results + Entries(traces[..last]), traces[last]);
      EntriesOneMore(c.results, traces);
    }
  }

  lemma {:induction false} NotesAfter(c: Context, traces: seq<Trace>)
    ensures OneWarningAtMost(c.notes, ContextAfter(c, traces).notes)
  {
    if traces != [] {
      NotesAfter(c, traces[..|traces| - 1]);
      WarningStays(c.notes, ContextAfter(c, traces[..|traces| - 1]).notes);
    }
  }

  lemma {:induction false} PendingAfter(c: Context, traces: seq<Trace>)
    ensures ContextAfter(c, traces).pending == LastAsked(traces, c.pending)
    ensures ContextAfter(c, traces).chainDepth == c.chainDepth + |traces|
  {
    if traces != [] {
      PendingAfter(c, traces[..|traces| - 1]);
    }
  }

  lemma {:induction false} LastAskedIsLast(traces: seq<Trace>, before: Option<string>, i: nat)
    requires i < |traces| && traces[i].state == RequiresConfirmation
    requires forall j :: i < j < |traces| ==> traces[j].state != RequiresConfirmation
    ensures LastAsked(traces, before) == Some(traces[i].id)
  {
    if i < |traces| - 1 {
      LastAskedIsLast(traces[..|traces| - 1], before, i);
    }
  }

  lemma {:induction false} ResultsSay(c: Context, traces: seq<Trace>)
    requires |c.results| <= KEPT_RESULTS
    ensures var all := c.results + Entries(traces);
            ContextAfter(c, traces).results == if |all| <= 10 then all else all[|all| - 10..]
  {
    ResultsAfter(c, traces);
  }

  lemma {:induction false} NotesSay(c: Context, traces: seq<Trace>)
    ensures var notes := ContextAfter(c, traces).notes;
            notes == c.notes ||
            ((forall n :: n in c.notes ==> n.Other? && !n.mentionsWarning) &&
             |notes| > 0 && notes[0].LoopWarning? && notes[1..] == c.notes)
  {
    NotesAfter(c, traces);
    WarnedSays(c.notes);
  }

  lemma WarnedSays(notes: seq<Note>)
    ensures Warned(notes) <==> !forall n :: n in notes ==> n.Other? && !n.mentionsWarning
  {
    if n :| n in notes && Warns(n) {
      var i :| 0 <= i < |notes| && notes[i] == n;
      assert Warned(notes);
    }
  }

  lemma {:induction false} LastAskedSays(traces: seq<Trace>, before: Option<string>)
    ensures forall i :: 0 <= i < |traces| && traces[i].state == RequiresConfirmation &&
                        (forall j :: i < j < |traces| ==> traces[j].state != RequiresConfirmation) ==>
              LastAsked(traces, before) == Some(traces[i].id)
    ensures (forall i :: 0 <= i < |traces| ==> traces[i].state != RequiresConfirmation) ==>
              LastAsked(traces, before) == before
  {
    forall i | 0 <= i < |traces| && traces[i].state == RequiresConfirmation &&
               (forall j :: i < j < |traces| ==> traces[j].state != RequiresConfirmation)
      ensures LastAsked(traces, before) == Some(traces[i].id)
    {
      LastAskedIsLast(traces, before, i);
    }
    if forall i :: 0 <= i < |traces| ==> traces[i].state != RequiresConfirmation {
      NoneAsked(traces, before);
    }
  }

  lemma {:induction false} NoneAsked(traces: seq<Trace>, before: Option<string>)
    requires forall j :: 0 <= j < |traces| ==> traces[j].state != RequiresConfirmation
    ensures LastAsked(traces, before) == before
  {
    if traces != [] {
      NoneAsked(traces[..|traces| - 1], before);
    }
  }

  // The context remembers exactly the last ten results, counts every call and warns once at most.
  lemma {:induction false} ContextSays(c: Context, es: seq<Event>, width: nat)
    requires |c.results| <= KEPT_RESULTS && Run(c, es, width)
    ensures var s := Exec(c, es, width);
            && (var all := c.results + Entries(s.traces);
                s.context.results == if |all| <= 10 then all else all[|all| - 10..])
            && s.context.chainDepth == c.chainDepth + |s.traces|
            && (s.context.notes == c.notes ||
                ((forall n :: n in c.notes ==> n.Other? && !n.mentionsWarning) &&
                 |s.context.notes| > 0 && s.context.notes[0].LoopWarning? && s.context.notes[1..] == c.notes))
  {
    var s := Exec(c, es, width);
    ContextFollowsTraces(c, es, width);
    ResultsSay(c, s.traces);
    NotesSay(c, s.traces);
    PendingAfter(c, s.traces);
  }

  // What is pending is the last request for confirmation, or what was pending before if there is none.
  lemma {:induction false} PendingSays(c: Context, es: seq<Event>, width: nat)
    requires Run(c, es, width)
    ensures var s := Exec(c, es, width);
            forall i :: 0 <= i < |s.traces| && s.traces[i].state == RequiresConfirmation &&
                        (forall j :: i < j < |s.traces| ==> s.traces[j].state != RequiresConfirmation) ==>
              s.context.pending == Some(s.traces[i].id)
    ensures var s := Exec(c, es, width);
            (forall i :: 0 <= i < |s.traces| ==> s.traces[i].state != RequiresConfirmation) ==>
              s.context.pending == c.pending
  {
    var s := Exec(c, es, width);
    ContextFollowsTraces(c, es, width);
    PendingAfter(c, s.traces);
    LastAskedSays(s.traces, c.pending);
  }

  lemma LastOfLast<T>(xs: seq<T>, x: T, n: nat)
    requires n >= 1
    ensures LastOf(LastOf(xs, n) + [x], n) == LastOf(xs + [x], n)
  {
  }

  lemma WarningStays(before: seq<Note>, after: seq<Note>)
    requires OneWarningAtMost(before, after)
    ensures after != before ==> Warned(after)
  {
    if after != before {
      assert Warns(after[0]);
    }
  }

  // A confirmation once asked for stays pending to the end, and the run reports it.
  lemma ConfirmationIsSticky(c: Context, es: seq<Event>, width: nat)
    requires Run(c, es, width)
    ensures var s := Exec(c, es, width);
            s.context.pending.Some? <==>
              c.pending.Some? || exists i :: 0 <= i < |s.traces| && s.traces[i].state == RequiresConfirmation
  {
    var s := Exec(c, es, width);
    ContextFollowsTraces(c, es, width);
    PendingAfter(c, s.traces);
    AskedIsPending(s.traces, c.pending);
  }

  lemma {:induction false} AskedIsPending(traces: seq<Trace>, before: Option<string>)
    ensures LastAsked(traces, before).Some? <==>
              before.Some? || exists i :: 0 <= i < |traces| && traces[i].state == RequiresConfirmation
  {
    if traces != [] {
      var last := |traces| - 1;
      AskedIsPending(traces[..last], before);
      assert forall i :: 0 <= i < last ==> traces[..last][i] == traces[i];
    }
  }
}
