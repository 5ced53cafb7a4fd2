/** The per-device command queue of gpu-load-controller.js: `sendCommand`, `sendQueuedOrDirect`, the
    resolving branches of `handleMessage`, the timeout, and the end or failure of the process. Calls
    are numbered in the order of `sendCommand`. */
module CommandQueue {
  import opened JsObject

  datatype Outcome = Resolved(msg: nat) | Rejected | ExitError | NotRunning

  datatype Device = Device(
    calls: nat,                   // calls made so far
    running: bool,                // the process is registered
    exited: bool,
    inFlight: Option<nat>,        // the call `pendingResolve` belongs to
    timers: set<nat>,             // calls whose timeout is armed
    pendingTimeout: Option<nat>,  // the timer that a resolution clears
    queue: seq<nat>,
    written: seq<nat>,            // commands written to the process, in order
    settled: map<nat, Outcome>)   // promises resolved or rejected

  function Initial(): Device {
    Device(0, true, false, None, {}, None, [], [], map[])
  }

  datatype Event = Call | Answer(msg: nat) | Timeout(call: nat) | Fault | Exit

  /** Only armed timers fire. A process exits once, and fails only before that. */
  predicate Possible(d: Device, e: Event) {
    (e.Timeout? ==> e.call in d.timers) && (e.Fault? || e.Exit? ==> !d.exited)
  }

  // ---- operations -------------------------------------------------------------------

  /** `sendQueuedOrDirect`. */
  function Dispatch(d: Device, call: nat): Device {
    d.(inFlight := Some(call), timers := d.timers + {call}, pendingTimeout := Some(call), written := d.written + [call])
  }

  function SendCommand(d: Device): Device {
    var call, e := d.calls, d.(calls := d.calls + 1);
    if !d.running then e.(settled := e.settled[call := NotRunning])
    else if d.inFlight.Some? then e.(queue := e.queue + [call])
    else Dispatch(e, call)
  }

  /** Calling `pendingResolve`: settles the call in flight and sends the next queued one. */
  function Resolve(d: Device, outcome: Outcome): Device
    requires d.inFlight.Some?
  {
    var e := d.(timers := d.timers - (if d.pendingTimeout.Some? then {d.pendingTimeout.value} else {}),
                pendingTimeout := None, inFlight := None, settled := d.settled[d.inFlight.value := outcome]);
    if d.queue == [] then e else Dispatch(e.(queue := d.queue[1..]), d.queue[0])
  }

  function OnAnswer(d: Device, msg: nat): Device {
    if d.inFlight.Some? then Resolve(d, Resolved(msg)) else d
  }

  /** The timeout's callback: the queue is dropped, not settled. */
  function OnTimeout(d: Device, call: nat): Device {
    d.(inFlight := None, queue := [], timers := d.timers - {call}, settled := d.settled[call := Rejected])
  }

  /** The `error` event of the process: it is unregistered, and what is in flight stays so. */
  function OnFault(d: Device): Device {
    d.(running := false)
  }

  function OnExit(d: Device): Device {
    (if d.inFlight.Some? then Resolve(d, ExitError).(inFlight := None) else d).(running := false, exited := true)
  }

  function Step(d: Device, e: Event): Device {
    match e
    case Call => SendCommand(d)
    case Answer(msg) => OnAnswer(d, msg)
    case Timeout(call) => OnTimeout(d, call)
    case Fault => OnFault(d)
    case Exit => OnExit(d)
  }

  function Run(events: seq<Event>): Device {
    if events == [] then Initial() else Step(Run(events[..|events| - 1]), events[|events| - 1])
  }

  ghost predicate PossibleRun(events: seq<Event>) {
    events == [] || (PossibleRun(events[..|events| - 1]) && Possible(Run(events[..|events| - 1]), events[|events| - 1]))
  }

  // ---- all runs ---------------------------------------------------------------------

  ghost predicate Increasing(s: seq<nat>) {
    forall i, j :: 0 <= i < j < |s| ==> s[i] < s[j]
  }

  ghost predicate Below(s: seq<nat>, n: nat) {
    forall i :: 0 <= i < |s| ==> s[i] < n
  }

  /** Commands are written in call order, and what waits comes after what was written. */
  ghost predicate InOrder(d: Device) {
    Increasing(d.written + d.queue) && Below(d.written + d.queue, d.calls)
  }

  /** What waits, is in flight, or has an armed timer is not settled. */
  ghost predicate Unsettled(d: Device) {
    && (forall c :: c in d.settled ==> c < d.calls)
    && (forall c :: c in d.queue ==> c !in d.settled && c !in d.timers)
    && (forall c :: c in d.timers ==> c !in d.settled && c < d.calls)
  }

  /** One call in flight at a time, with its timer; nothing waits for nothing. */
  ghost predicate OneInFlight(d: Device) {
    && (!d.exited ==> d.timers == if d.inFlight.Some? then {d.inFlight.value} else {})
    && (d.exited ==> d.inFlight == None && !d.running)
    && (d.inFlight.Some? ==>
          d.pendingTimeout == d.inFlight && d.written != [] && d.written[|d.written| - 1] == d.inFlight.value)
    && (!d.exited && d.inFlight == None ==> d.queue == [])
  }

  ghost predicate Kept(d: Device) {
    InOrder(d) && Unsettled(d) && OneInFlight(d)
  }

  lemma CallKeeps(d: Device)
    requires Kept(d)
    ensures Kept(SendCommand(d))
  {
    assert d.calls !in d.settled && d.calls !in d.timers;
    forall c | c in d.queue ensures c < d.calls {
      var i :| 0 <= i < |d.queue| && d.queue[i] == c;
      assert (d.written + d.queue)[|d.written| + i] == c;
    }
    if d.running && d.inFlight.Some? {
      assert d.written + (d.queue + [d.calls]) == (d.written + d.queue) + [d.calls];
      assert forall c :: c in d.queue + [d.calls] ==> c in d.queue || c == d.calls;
    } else if d.running {
      assert (d.written + [d.calls]) + d.queue == (d.written + d.queue) + [d.calls];
    }
  }

  lemma QueueAfterWritten(d: Device, i: nat)
    requires InOrder(d) && i < |d.queue|
    ensures d.written != [] ==> d.written[|d.written| - 1] < d.queue[i]
    ensures i > 0 ==> d.queue[0] < d.queue[i]
  {
    var all := d.written + d.queue;
    assert all[|d.written| + i] == d.queue[i];
    if i > 0 {
      assert all[|d.written|] == d.queue[0];
    }
    if d.written != [] {
      assert all[|d.written| - 1] == d.written[|d.written| - 1];
    }
  }

  lemma ResolveKeeps(d: Device, outcome: Outcome)
    requires Kept(d) && d.inFlight.Some?
    ensures Kept(Resolve(d, outcome))
  {
    var r := Resolve(d, outcome);
    assert r.written + r.queue == d.written + d.queue;
    if d.queue != [] {
      var first := d.queue[0];
      QueueAfterWritten(d, 0);
      assert first in d.queue;
      assert r.timers == {first};
      assert (d.written + d.queue)[|d.written|] == first;
      forall c | c in r.queue ensures c !in r.settled && c !in r.timers {
        var i :| 0 <= i < |d.queue[1..]| && d.queue[1..][i] == c;
        QueueAfterWritten(d, i + 1);
        assert c in d.queue;
      }
    }
  }

  lemma TimeoutKeeps(d: Device, call: nat)
    requires Kept(d) && call in d.timers
    ensures Kept(OnTimeout(d, call))
  {
    var all := d.written + d.queue;
    assert d.written + [] == all[..|d.written|];
  }

  lemma ExitKeeps(d: Device)
    requires Kept(d) && !d.exited
    ensures Kept(OnExit(d))
  {
    if d.inFlight.Some? {
      ResolveKeeps(d, ExitError);
    }
  }

  lemma StepKeeps(d: Device, e: Event)
    requires Kept(d) && Possible(d, e)
    ensures Kept(Step(d, e))
  {
    match e
    case Call => CallKeeps(d);
    case Answer(msg) =>
      if d.inFlight.Some? {
        ResolveKeeps(d, Resolved(msg));
      }
    case Timeout(call) => TimeoutKeeps(d, call);
    case Fault =>
    case Exit => ExitKeeps(d);
  }

  /** In every run, with any timeouts, stray answers, failures and an exit: commands are written in call order,
      at most one is in flight, and nothing unsettled is forgotten while the device runs idle. */
  lemma {:induction false} AlwaysKept(events: seq<Event>)
    requires PossibleRun(events)
    ensures Kept(Run(events))
  {
    if events != [] {
      AlwaysKept(events[..|events| - 1]);
      StepKeeps(Run(events[..|events| - 1]), events[|events| - 1]);
    }
  }

  /** A promise once settled is never settled again. */
  lemma SettledOnce(d: Device, e: Event, c: nat)
    requires Kept(d) && Possible(d, e) && c in d.settled
    ensures c in Step(d, e).settled && Step(d, e).settled[c] == d.settled[c]
  {
  }

  /** How an event settles a call: a new one on a device that does not run, the one in flight by an
      answer or an exit, and one whose timeout fires. */
  ghost predicate SettledBy(d: Device, e: Event, c: nat, o: Outcome) {
    match e
    case Call => c == d.calls && !d.running && o == NotRunning
    case Answer(msg) => d.inFlight == Some(c) && o == Resolved(msg)
    case Timeout(call) => c == call && o == Rejected
    case Fault => false
    case Exit => d.inFlight == Some(c) && o == ExitError
  }

  /** A call has an outcome after an event exactly if it had it before, or the event settles it so. */
  lemma SettledIff(d: Device, e: Event, c: nat, o: Outcome)
    requires Kept(d) && Possible(d, e)
    ensures c in Step(d, e).settled && Step(d, e).settled[c] == o <==>
            (c in d.settled && d.settled[c] == o) || SettledBy(d, e, c, o)
  {
    assert d.inFlight.Some? && !d.exited ==> d.inFlight.value in d.timers;
  }

  /** A call is written at once if nothing is in flight, and otherwise when it is first in the queue and
      the one in flight is answered, or fails with the process. */
  lemma WrittenNext(d: Device, e: Event)
    requires Kept(d) && Possible(d, e)
    ensures Step(d, e).written ==
            if e.Call? && d.running && d.inFlight == None then d.written + [d.calls]
            else if (e.Answer? || e.Exit?) && d.inFlight.Some? && d.queue != [] then d.written + [d.queue[0]]
            else d.written
    ensures Step(d, e).queue ==
            if e.Call? && d.running && d.inFlight.Some? then d.queue + [d.calls]
            else if (e.Answer? || e.Exit?) && d.inFlight.Some? && d.queue != [] then d.queue[1..]
            else if e.Timeout? then [] else d.queue
    ensures Step(d, e).calls == if e.Call? then d.calls + 1 else d.calls
  {
  }

  /** What is written is in flight, until it is answered, its timeout fires, or the process exits. */
  lemma InFlightNext(d: Device, e: Event)
    requires Kept(d) && Possible(d, e)
    ensures Step(d, e).inFlight ==
            if e.Call? && d.running && d.inFlight == None then Some(d.calls)
            else if e.Answer? && d.inFlight.Some? then (if d.queue != [] then Some(d.queue[0]) else None)
            else if e.Timeout? || e.Exit? then None else d.inFlight
  {
  }

  /** A device is registered until its process fails or exits. */
  lemma RunningNext(d: Device, e: Event)
    ensures Step(d, e).running == (d.running && !e.Fault? && !e.Exit?)
  {
  }

  /** An open call that is neither waiting, nor in flight, nor watched by a timer. */
  predicate Lost(d: Device, c: nat) {
    c < d.calls && c !in d.settled && c !in d.timers && c !in d.queue && d.inFlight != Some(c)
  }

  /** A call is lost exactly by waiting in the queue while a timeout fires... */
  lemma LostIff(d: Device, e: Event, c: nat)
    requires Kept(d) && Possible(d, e) && !Lost(d, c) && c < d.calls
    ensures Lost(Step(d, e), c) <==> e.Timeout? && c in d.queue
  {
    if (e.Answer? || e.Exit?) && d.inFlight.Some? && d.queue != [] {
      assert d.queue == [d.queue[0]] + d.queue[1..];
      assert c in d.queue ==> c == d.queue[0] || c in d.queue[1..];
    }
  }

  /** ...and is then lost for good: its promise never settles. */
  lemma LostForGood(d: Device, e: Event, c: nat)
    requires Kept(d) && Possible(d, e) && Lost(d, c)
    ensures Lost(Step(d, e), c)
  {
    if (e.Answer? || e.Exit?) && d.inFlight.Some? && d.queue != [] {
      assert forall q :: q in d.queue[1..] ==> q in d.queue;
      assert d.queue[0] in d.queue;
    }
  }

  /** An exit fails the call in flight and hands the next one to a process that is gone: only its
      timeout can settle it, and that loses all the others. */
  lemma ExitStrandsQueue(d: Device)
    requires Kept(d) && !d.exited && d.inFlight.Some? && d.queue != []
    ensures var x, next := OnExit(d), d.queue[0];
            && x.settled == d.settled[d.inFlight.value := ExitError] && x.timers == {next} && next !in x.settled
            && (forall msg :: OnAnswer(x, msg) == x)
            && OnTimeout(x, next).settled == x.settled[next := Rejected]
            && (forall c :: c in d.queue && c != next ==> Lost(OnTimeout(x, next), c))
  {
    ResolveKeeps(d, ExitError);
    assert d.queue == [d.queue[0]] + d.queue[1..];
    forall c | c in d.queue ensures c < d.calls && c != d.inFlight.value {
      var i :| 0 <= i < |d.queue| && d.queue[i] == c;
      assert (d.written + d.queue)[|d.written| + i] == c;
      QueueAfterWritten(d, i);
    }
  }

  // ---- runs without timeout or exit -------------------------------------------------

  ghost predicate Undisturbed(events: seq<Event>) {
    forall i :: 0 <= i < |events| ==> events[i].Call? || events[i].Answer?
  }

  /** The answers that found a call in flight. */
  function Used(events: seq<Event>): seq<nat> {
    if events == [] then []
    else
      var front, e := events[..|events| - 1], events[|events| - 1];
      Used(front) + if e.Answer? && Run(front).inFlight.Some? then [e.msg] else []
  }

  function Numbers(from: nat, to: nat): seq<nat>
    requires from <= to
  {
    seq(to - from, i => from + i)
  }

  /** `k` answers in: the first `k` calls are settled with them, the next one is in flight, and the
      others wait in order. */
  ghost predicate Served(d: Device, answers: seq<nat>) {
    var k := |answers|;
    && k <= d.calls && d.running
    && d.settled == (map c: nat | 0 <= c < k :: Resolved(answers[c]))
    && d.inFlight == (if k < d.calls then Some(k) else None)
    && d.written == Numbers(0, if k < d.calls then k + 1 else k)
    && d.queue == (if k < d.calls then Numbers(k + 1, d.calls) else [])
    && d.pendingTimeout == d.inFlight && d.timers == (if k < d.calls then {k} else {})
  }

  lemma CallServed(d: Device, answers: seq<nat>)
    requires Served(d, answers)
    ensures Served(SendCommand(d), answers)
  {
    var k, n := |answers|, d.calls;
    if k < n {
      assert Numbers(k + 1, n) + [n] == Numbers(k + 1, n + 1);
    } else {
      assert Numbers(0, k) + [n] == Numbers(0, k + 1);
      assert Numbers(k + 1, n + 1) == [];
    }
  }

  lemma AnswerServed(d: Device, answers: seq<nat>, msg: nat)
    requires Served(d, answers) && d.inFlight.Some?
    ensures Served(OnAnswer(d, msg), answers + [msg])
  {
    var k, n := |answers|, d.calls;
    var s := map c: nat | 0 <= c < k + 1 :: Resolved((answers + [msg])[c]);
    assert d.settled[k := Resolved(msg)] == s;
    assert d.timers - {k} == {};
    if k + 1 < n {
      assert d.queue[0] == k + 1 && d.queue[1..] == Numbers(k + 2, n);
      assert Numbers(0, k + 1) + [k + 1] == Numbers(0, k + 2);
    } else {
      assert d.queue == [];
    }
  }

  /** Without timeout or exit, commands go out in call order, one at a time, and the k-th answer that
      finds a command in flight resolves the k-th call. */
  lemma {:induction false} AnswersMatchCalls(events: seq<Event>)
    requires Undisturbed(events)
    ensures Served(Run(events), Used(events))
  {
    if events == [] {
      assert Numbers(0, 0) == [];
    } else {
      var front, e := events[..|events| - 1], events[|events| - 1];
      AnswersMatchCalls(front);
      if e.Call? {
        CallServed(Run(front), Used(front));
        assert Used(front) + [] == Used(front);
      } else if Run(front).inFlight.Some? {
        AnswerServed(Run(front), Used(front), e.msg);
      } else {
        assert Used(front) + [] == Used(front);
      }
    }
  }

  // ---- a run in which calls are lost ------------------------------------------------

  lemma RunNext(events: seq<Event>, e: Event)
    ensures Run(events + [e]) == Step(Run(events), e)
    ensures PossibleRun(events + [e]) <==> PossibleRun(events) && Possible(Run(events), e)
  {
    assert (events + [e])[..|events|] == events;
  }

  function Calls(n: nat): seq<Event> {
    seq(n, _ => Call)
  }

  lemma {:induction false} CallsOnly(n: nat)
    ensures PossibleRun(Calls(n)) && Used(Calls(n)) == []
  {
    if n > 0 {
      CallsOnly(n - 1);
      assert Calls(n)[..n - 1] == Calls(n - 1);
    }
  }

  /** Several calls, then an exit: the first fails, the second is rejected after its timeout, and all
      others are lost. */
  lemma ExitRun(n: nat)
    requires n >= 2
    ensures var events := Calls(n) + [Exit] + [Timeout(1)];
            && PossibleRun(events) && Run(events).settled == map[0 := ExitError, 1 := Rejected]
            && forall c :: 2 <= c < n ==> Lost(Run(events), c)
  {
    CallsOnly(n);
    AnswersMatchCalls(Calls(n));
    AlwaysKept(Calls(n));
    var d := Run(Calls(n));
    CallsCounted(n);
    assert d.queue == Numbers(1, n) && d.queue[0] == 1 && d.settled == map[];
    ExitStrandsQueue(d);
    RunNext(Calls(n), Exit);
    RunNext(Calls(n) + [Exit], Timeout(1));
    forall c | 2 <= c < n ensures c in d.queue {
      assert d.queue[c - 1] == c;
    }
  }

  lemma {:induction false} CallsCounted(n: nat)
    ensures Run(Calls(n)).calls == n
  {
    if n > 0 {
      CallsCounted(n - 1);
      assert Calls(n)[..n - 1] == Calls(n - 1);
    }
  }

  // ---- the object -------------------------------------------------------------------

  class GpuDevice {
    var running: bool
    ghost var exited: bool
    var pendingResolve: Option<nat>
    var timers: set<nat>
    var pendingTimeout: Option<nat>
    var cmdQueue: seq<nat>
    var written: seq<nat>
    var settled: map<nat, Outcome>
    var calls: nat

    ghost function View(): Device
      reads this
    {
      Device(calls, running, exited, pendingResolve, timers, pendingTimeout, cmdQueue, written, settled)
    }

    ghost predicate Valid()
      reads this
    {
      Kept(View())
    }

    constructor ()
      ensures View() == Initial() && Valid()
    {
      running, exited, pendingResolve, timers, pendingTimeout := true, false, None, {}, None;
      cmdQueue, written, settled, calls := [], [], map[], 0;
    }

    method Send()
      requires Valid()
      modifies this
      ensures View() == Step(old(View()), Call) && Valid()
    {
      CallKeeps(View());
      var call := calls;
      calls := calls + 1;
      if !running {
        settled := settled[call := NotRunning];
        return;
      }
      if pendingResolve.Some? {
        cmdQueue := cmdQueue + [call];
        return;
      }
      SendQueuedOrDirect(call);
    }

    method SendQueuedOrDirect(call: nat)
      modifies this
      ensures View() == Dispatch(old(View()), call)
    {
      pendingResolve := Some(call);
      timers := timers + {call};
      pendingTimeout := Some(call);
      written := written + [call];
    }

    /** The closure stored in `pendingResolve`. */
    method ResolvePending(outcome: Outcome)
      requires Valid() && pendingResolve.Some?
      modifies this
      ensures View() == Resolve(old(View()), outcome) && Valid()
    {
      ResolveKeeps(View(), outcome);
      var call := pendingResolve.value;
      if pendingTimeout.Some? {
        timers := timers - {pendingTimeout.value};
      }
      pendingTimeout := None;
      pendingResolve := None;
      settled := settled[call := outcome];
      if |cmdQueue| > 0 {
        var next := cmdQueue[0];
        cmdQueue := cmdQueue[1..];
        SendQueuedOrDirect(next);
      }
    }

    /** A message of one of the answering kinds. */
    method HandleAnswer(msg: nat)
      requires Valid()
      modifies this
      ensures View() == Step(old(View()), Answer(msg)) && Valid()
    {
      if pendingResolve.Some? {
        ResolvePending(Resolved(msg));
      }
    }

    method HandleTimeout(call: nat)
      requires Valid() && call in timers
      modifies this
      ensures View() == Step(old(View()), Timeout(call)) && Valid()
    {
      TimeoutKeeps(View(), call);
      timers := timers - {call};
      pendingResolve := None;
      cmdQueue := [];
      settled := settled[call := Rejected];
    }

    method HandleError()
      requires Valid() && !exited
      modifies this
      ensures View() == Step(old(View()), Fault) && Valid()
    {
      running := false;
    }

    method HandleExit()
      requires Valid() && !exited
      modifies this
      ensures View() == Step(old(View()), Exit) && Valid()
    {
      ExitKeeps(View());
      if pendingResolve.Some? {
        ResolvePending(ExitError);
        pendingResolve := None;
      }
      running := false;
      exited := true;
    }
  }
}
