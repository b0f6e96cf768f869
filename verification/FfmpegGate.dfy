/**
 The gate every ffmpeg child process passes through: a counting semaphore with a
 first-come wait list, direct hand-off of a freed slot, and cancellation.

 A run is a sequence of events, each one an atomic JavaScript callback.  `Step` is the
 specification of one event on values; the class `Gate` performs the same events by
 updating its fields in place, and each of its methods is proved equal to `Step`.
 */
module FfmpegGate {
  import opened Text

  /** A call is named by its place in the order of arrival. */
  type CallId = nat

  /** An abort signal; several calls may share one. */
  type Signal = nat

  datatype Phase =
    | Waiting                // in the wait list
    | Granted                // its promise is resolved, the awaiting caller has not resumed
    | Running(doomed: bool)  // inside exec; doomed when the signal had fired before the spawn
    | Finished(ok: bool)     // exec settled and the slot was released
    | Rejected               // its promise was rejected by an abort

  /** One call's fate; `settlements` and `releases` count what was done on its behalf. */
  datatype Call = Call(signal: Option<Signal>, phase: Phase, settlements: nat, releases: nat)

  datatype Waiter = Waiter(id: CallId, signal: Option<Signal>)

  datatype State = State(
    max: nat,
    active: int,
    waiting: seq<Waiter>,
    listening: set<Waiter>,   // waiters whose abort listener is registered
    aborted: set<Signal>,
    calls: seq<Call>,
    grants: seq<CallId>)      // every slot ever given, in order

  datatype Event =
    | Arrive(signal: Option<Signal>)
    | Abort(source: Signal)
    | Resume(id: CallId)
    | Exit(id: CallId, ok: bool)

  datatype Result<+T> = Ok(value: T) | Err

  /** What JavaScript's Number() makes of a string. */
  datatype Number = NaN | Infinite | Finite(value: real)

  const MAX_SAFE_INTEGER := 0x1F_FFFF_FFFF_FFFF

  // ---------------------------------------------------------------- configuration

  predicate IsInteger(number: Number, n: int) {
    number == Finite(n as real)
  }

  /** Is the variable missing or only white space? */
  predicate Unset(value: Option<string>) {
    value.None? || Trim(value.value) == ""
  }

  /** The limit read from the environment; `number` is what Number() makes of the text. */
  function ParseConcurrency(value: Option<string>, number: Number): (r: Result<nat>)
    ensures r.Ok? ==> 1 <= r.value <= MAX_SAFE_INTEGER
    ensures r.Err? <==> !Unset(value) && forall n: nat :: IsInteger(number, n) ==> !(1 <= n <= MAX_SAFE_INTEGER)
    ensures r.Ok? && !Unset(value) ==> IsInteger(number, r.value)
    ensures Unset(value) ==> r == Ok(1)
  {
    if Unset(value) then Ok(1)
    else if number.Finite? && number.value.Floor as real == number.value
         && 1.0 <= number.value <= MAX_SAFE_INTEGER as real
    then
      assert IsInteger(number, number.value.Floor);
      Ok(number.value.Floor)
    else Err
  }

  /** Blank means one at a time; anything else must be a whole number of at least 1 that JavaScript holds exactly. */
  lemma ConcurrencyIsExactly(value: Option<string>, number: Number, n: int)
    ensures var blank := value.None? || forall c :: c in value.value ==> IsSpace(c);
      && (blank ==> ParseConcurrency(value, number) == Ok(1))
      && (!blank ==>
            (1 <= n <= 9007199254740991 && number == Finite(n as real) <==>
             ParseConcurrency(value, number).Ok? && ParseConcurrency(value, number).value == n))
  {
    if value.Some? {
      var a, b := TrimCuts(value.value);
      assert AllSpace(value.value) <==> forall c :: c in value.value ==> IsSpace(c);
    }
  }

  // ---------------------------------------------------------------- one event, on values

  function Init(max: nat): State {
    State(max, 0, [], {}, {}, [], [])
  }

  function Settle(c: Call, phase: Phase): Call {
    c.(phase := phase, settlements := c.settlements + 1)
  }

  /** The wait list with some waiters removed and the rest in their old order. */
  function Without(ws: seq<Waiter>, gone: set<Waiter>): seq<Waiter> {
    if ws == [] then []
    else (if ws[0] in gone then [] else [ws[0]]) + Without(ws[1..], gone)
  }

  function RejectAll(calls: seq<Call>, hit: set<Waiter>): (r: seq<Call>)
    ensures |r| == |calls|
  {
    seq(|calls|, i requires 0 <= i < |calls| =>
      if Waiter(i, calls[i].signal) in hit then Settle(calls[i], Rejected) else calls[i])
  }

  function WaitersOn(st: State, s: Signal): set<Waiter> {
    set w | w in st.waiting && w.signal == Some(s)
  }

  predicate HasFired(st: State, signal: Option<Signal>) {
    signal.Some? && signal.value in st.aborted
  }

  function ArriveStep(st: State, signal: Option<Signal>): State {
    var id := |st.calls|;
    if HasFired(st, signal) then
      st.(calls := st.calls + [Call(signal, Rejected, 1, 0)])
    else if st.active < st.max then
      st.(active := st.active + 1, calls := st.calls + [Call(signal, Granted, 1, 0)], grants := st.grants + [id])
    else
      var w := Waiter(id, signal);
      st.(waiting := st.waiting + [w],
          listening := if signal.Some? then st.listening + {w} else st.listening,
          calls := st.calls + [Call(signal, Waiting, 0, 0)])
  }

  function AbortStep(st: State, s: Signal): State {
    var hit := WaitersOn(st, s);
    st.(aborted := st.aborted + {s},
        waiting := Without(st.waiting, hit),
        listening := st.listening - hit,
        calls := RejectAll(st.calls, hit))
  }

  function ReleaseStep(st: State): State
    requires st.waiting != [] ==> st.waiting[0].id < |st.calls|
  {
    if st.waiting == [] then st.(active := st.active - 1)
    else
      var w := st.waiting[0];
      st.(waiting := st.waiting[1..],
          listening := st.listening - {w},
          calls := st.calls[w.id := Settle(st.calls[w.id], Granted)],
          grants := st.grants + [w.id])
  }

  /** Can this happen now?  (That the head of the queue is a known call is part of the invariant below.) */
  predicate Enabled(st: State, ev: Event) {
    match ev
    case Arrive(_) => true
    case Abort(s) => s !in st.aborted
    case Resume(id) => id < |st.calls| && st.calls[id].phase.Granted?
    case Exit(id, ok) =>
      && id < |st.calls| && st.calls[id].phase.Running? && (st.calls[id].phase.doomed ==> !ok)
      && (st.waiting != [] ==> st.waiting[0].id < |st.calls|)
  }

  /** One event; an event that cannot happen in `st` leaves it as it is. */
  function Step(st: State, ev: Event): State {
    if !Enabled(st, ev) then st else
    match ev
    case Arrive(signal) => ArriveStep(st, signal)
    case Abort(s) => AbortStep(st, s)
    case Resume(id) =>
      st.(calls := st.calls[id := st.calls[id].(phase := Running(HasFired(st, st.calls[id].signal)))])
    case Exit(id, ok) =>
      var c := st.calls[id];
      ReleaseStep(st.(calls := st.calls[id := c.(phase := Finished(ok), releases := c.releases + 1)]))
  }

  function Run(st: State, events: seq<Event>): State
    decreases |events|
  {
    if events == [] then st else Run(Step(st, events[0]), events[1..])
  }

  // ---------------------------------------------------------------- the invariant

  predicate Holding(c: Call) {
    c.phase.Granted? || c.phase.Running?
  }

  predicate WasGranted(c: Call) {
    Holding(c) || c.phase.Finished?
  }

  function Holders(calls: seq<Call>): nat {
    if calls == [] then 0 else Holders(calls[..|calls| - 1]) + (if Holding(calls[|calls| - 1]) then 1 else 0)
  }

  /** `active` counts the slots in use, and a queue forms only when all of them are. */
  ghost predicate Counted(st: State) {
    && 1 <= st.max
    && st.active == Holders(st.calls) <= st.max
    && (st.waiting != [] ==> st.active == st.max)
  }

  /** The wait list holds exactly the waiting calls, in arrival order, none with a fired signal. */
  ghost predicate Queued(st: State) {
    && (forall i, j :: 0 <= i < j < |st.waiting| ==> st.waiting[i].id < st.waiting[j].id)
    && (forall w :: w in st.waiting ==>
          && w.id < |st.calls| && st.calls[w.id].phase.Waiting?
          && st.calls[w.id].signal == w.signal && !HasFired(st, w.signal))
    && (forall id: CallId :: id < |st.calls| && st.calls[id].phase.Waiting? ==>
          Waiter(id, st.calls[id].signal) in st.waiting)
  }

  /** A listener is registered exactly while its call, if it has a signal, is in the wait list. */
  ghost predicate Heard(st: State) {
    forall w :: w in st.listening <==> w in st.waiting && w.signal.Some?
  }

  /** Every call is settled once and releases once, at the right moment and never otherwise. */
  predicate Accounted(st: State, c: Call) {
    && c.settlements == (if c.phase.Waiting? then 0 else 1)
    && c.releases == (if c.phase.Finished? then 1 else 0)
    && (c.phase.Rejected? ==> HasFired(st, c.signal))
    && (c.phase.Running? && c.phase.doomed ==> HasFired(st, c.signal))
  }

  ghost predicate AllAccounted(st: State) {
    forall id :: 0 <= id < |st.calls| ==> Accounted(st, st.calls[id])
  }

  /** Slots were granted in arrival order, and everyone still waiting arrived after everyone served. */
  ghost predicate InOrder(st: State) {
    && (forall i, j :: 0 <= i < j < |st.grants| ==> st.grants[i] < st.grants[j])
    && (forall g :: g in st.grants ==> g < |st.calls| && WasGranted(st.calls[g]))
    && (forall id :: 0 <= id < |st.calls| && WasGranted(st.calls[id]) ==> id in st.grants)
    && (forall g, w :: g in st.grants && w in st.waiting ==> g < w.id)
  }

  ghost predicate Inv(st: State) {
    Counted(st) && Queued(st) && Heard(st) && AllAccounted(st) && InOrder(st)
  }

  // ---------------------------------------------------------------- counting and filtering

  lemma {:induction false} HoldersUpdate(calls: seq<Call>, id: nat, c: Call)
    requires id < |calls|
    ensures Holders(calls[id := c]) + (if Holding(calls[id]) then 1 else 0)
            == Holders(calls) + (if Holding(c) then 1 else 0)
  {
    var n := |calls| - 1;
    if id == n {
      assert calls[id := c][..n] == calls[..n];
    } else {
      assert calls[id := c][..n] == calls[..n][id := c];
      HoldersUpdate(calls[..n], id, c);
    }
  }

  lemma {:induction false} HoldersSame(a: seq<Call>, b: seq<Call>)
    requires |a| == |b|
    requires forall i :: 0 <= i < |a| ==> Holding(a[i]) == Holding(b[i])
    ensures Holders(a) == Holders(b)
  {
    if a != [] { HoldersSame(a[..|a| - 1], b[..|b| - 1]); }
  }

  lemma HoldersAppend(calls: seq<Call>, c: Call)
    ensures Holders(calls + [c]) == Holders(calls) + (if Holding(c) then 1 else 0)
  {
    assert (calls + [c])[..|calls|] == calls;
  }

  lemma {:induction false} HoldersWitness(calls: seq<Call>) returns (id: CallId)
    requires Holders(calls) > 0
    ensures id < |calls| && Holding(calls[id])
  {
    if Holding(calls[|calls| - 1]) { id := |calls| - 1; } else { id := HoldersWitness(calls[..|calls| - 1]); }
  }

  lemma {:induction false} HoldersNone(calls: seq<Call>)
    requires forall id :: 0 <= id < |calls| ==> !Holding(calls[id])
    ensures Holders(calls) == 0
  {
    if calls != [] { HoldersNone(calls[..|calls| - 1]); }
  }

  predicate Sorted(ws: seq<Waiter>) {
    forall i, j :: 0 <= i < j < |ws| ==> ws[i].id < ws[j].id
  }

  lemma {:induction false} WithoutMembers(ws: seq<Waiter>, gone: set<Waiter>)
    requires Sorted(ws)
    ensures forall w :: w in Without(ws, gone) <==> w in ws && w !in gone
    ensures Sorted(Without(ws, gone))
    ensures Without(ws, gone) != [] ==> ws != []
  {
    if ws != [] {
      WithoutMembers(ws[1..], gone);
      var rest := Without(ws[1..], gone);
      forall w ensures w in Without(ws, gone) <==> w in ws && w !in gone { assert ws == [ws[0]] + ws[1..]; }
      forall k | 0 <= k < |rest| ensures ws[0].id < rest[k].id { assert rest[k] in ws[1..]; }
    }
  }

  // ---------------------------------------------------------------- every event keeps the invariant

  lemma ArriveCounted(st: State, signal: Option<Signal>)
    requires Counted(st)
    ensures Counted(ArriveStep(st, signal))
  {
    HoldersAppend(st.calls, ArriveStep(st, signal).calls[|st.calls|]);
  }

  lemma ArriveQueued(st: State, signal: Option<Signal>)
    requires Queued(st)
    ensures Queued(ArriveStep(st, signal))
  {
    var t := ArriveStep(st, signal);
    var id := |st.calls|;
    assert forall k :: 0 <= k < id ==> t.calls[k] == st.calls[k];
    if t.calls[id].phase.Waiting? {
      var w := Waiter(id, signal);
      assert t.waiting == st.waiting + [w];
      forall i | 0 <= i < |st.waiting| ensures st.waiting[i].id < id { assert st.waiting[i] in st.waiting; }
      assert forall v :: v in t.waiting <==> v in st.waiting || v == w;
    } else {
      assert t.waiting == st.waiting;
    }
  }

  lemma ArriveAccounted(st: State, signal: Option<Signal>)
    requires Queued(st) && Heard(st) && AllAccounted(st)
    ensures var t := ArriveStep(st, signal); Heard(t) && AllAccounted(t)
  {
  }

  lemma ArriveInOrder(st: State, signal: Option<Signal>)
    requires Counted(st) && InOrder(st)
    ensures InOrder(ArriveStep(st, signal))
  {
    var t := ArriveStep(st, signal);
    var id := |st.calls|;
    assert forall k :: 0 <= k < id ==> t.calls[k] == st.calls[k];
    forall i | 0 <= i < |st.grants| ensures st.grants[i] < id { assert st.grants[i] in st.grants; }
    if t.grants != st.grants {
      assert t.grants[|st.grants|] == id && forall g :: g in t.grants <==> g in st.grants || g == id;
    }
  }

  lemma AbortCounted(st: State, s: Signal)
    requires Counted(st) && Queued(st)
    ensures var t := AbortStep(st, s); Counted(t) && Queued(t)
  {
    var t := AbortStep(st, s);
    WithoutMembers(st.waiting, WaitersOn(st, s));
    HoldersSame(st.calls, t.calls);
  }

  lemma AbortLogged(st: State, s: Signal)
    requires Inv(st)
    ensures var t := AbortStep(st, s); Heard(t) && AllAccounted(t) && InOrder(t)
  {
    WithoutMembers(st.waiting, WaitersOn(st, s));
  }

  lemma ResumeCounted(st: State, id: CallId)
    requires Counted(st) && Enabled(st, Resume(id))
    ensures Counted(Step(st, Resume(id)))
  {
    HoldersUpdate(st.calls, id, Step(st, Resume(id)).calls[id]);
  }

  lemma ResumeKeepsRest(st: State, id: CallId)
    requires Queued(st) && Heard(st) && AllAccounted(st) && InOrder(st) && Enabled(st, Resume(id))
    ensures var t := Step(st, Resume(id)); Queued(t) && Heard(t) && AllAccounted(t) && InOrder(t)
  {
  }

  /** The state between a process's exit and its slot's release. */
  function Exited(st: State, id: CallId, ok: bool): State
    requires id < |st.calls|
  {
    var c := st.calls[id];
    st.(calls := st.calls[id := c.(phase := Finished(ok), releases := c.releases + 1)])
  }

  lemma HandOffFacts(st: State)
    requires Queued(st) && st.waiting != []
    ensures st.waiting[0].id < |st.calls|
    ensures forall w :: w in ReleaseStep(st).waiting <==> w in st.waiting && w != st.waiting[0]
    ensures forall w :: w in ReleaseStep(st).waiting ==> st.waiting[0].id < w.id
    ensures Sorted(ReleaseStep(st).waiting)
  {
    assert st.waiting[0] in st.waiting;
    assert st.waiting == [st.waiting[0]] + st.waiting[1..];
  }

  lemma ExitCounted(st: State, id: CallId, ok: bool)
    requires Counted(st) && Queued(st) && Enabled(st, Exit(id, ok))
    ensures Counted(Step(st, Exit(id, ok)))
  {
    if st.waiting != [] { assert st.waiting[0] in st.waiting && st.calls[st.waiting[0].id].phase.Waiting?; }
    hide Queued;
    var mid := Exited(st, id, ok);
    HoldersUpdate(st.calls, id, mid.calls[id]);
    if st.waiting != [] {
      var w := st.waiting[0];
      assert mid.calls[w.id] == st.calls[w.id];
      HoldersUpdate(mid.calls, w.id, Settle(mid.calls[w.id], Granted));
    }
  }

  lemma ExitQueued(st: State, id: CallId, ok: bool)
    requires Queued(st) && Heard(st) && Enabled(st, Exit(id, ok))
    ensures var t := Step(st, Exit(id, ok)); Queued(t) && Heard(t)
  {
    if st.waiting != [] { HandOffFacts(st); }
  }

  lemma ExitLogged(st: State, id: CallId, ok: bool)
    requires Inv(st) && Enabled(st, Exit(id, ok))
    ensures var t := Step(st, Exit(id, ok)); AllAccounted(t) && InOrder(t)
  {
    if st.waiting != [] {
      HandOffFacts(st);
      var w := st.waiting[0];
      var t := Step(st, Exit(id, ok));
      assert w in st.waiting && t.grants == st.grants + [w.id];
      assert forall g :: g in t.grants <==> g in st.grants || g == w.id;
      forall i | 0 <= i < |st.grants| ensures t.grants[i] < w.id { assert st.grants[i] in st.grants; }
    }
  }

  lemma StepKeeps(st: State, ev: Event)
    requires Inv(st)
    ensures Inv(Step(st, ev))
  {
    if Enabled(st, ev) {
      match ev
      case Arrive(signal) =>
        ArriveCounted(st, signal);
        ArriveQueued(st, signal);
        ArriveAccounted(st, signal);
        ArriveInOrder(st, signal);
      case Abort(s) =>
        AbortCounted(st, s);
        AbortLogged(st, s);
      case Resume(id) =>
        ResumeCounted(st, id);
        ResumeKeepsRest(st, id);
      case Exit(id, ok) =>
        ExitCounted(st, id, ok);
        ExitQueued(st, id, ok);
        ExitLogged(st, id, ok);
    }
  }

  lemma {:induction false} RunKeeps(st: State, events: seq<Event>)
    requires Inv(st)
    ensures Inv(Run(st, events))
    decreases |events|
  {
    if events != [] {
      StepKeeps(st, events[0]);
      RunKeeps(Step(st, events[0]), events[1..]);
    }
  }

  // ---------------------------------------------------------------- what each event does, call by call

  /** Nothing but call `id` differs between two lists of calls. */
  predicate OnlyChanges(before: seq<Call>, after: seq<Call>, id: CallId) {
    |after| == |before| && forall i :: 0 <= i < |before| && i != id ==> after[i] == before[i]
  }

  /** A new call is refused when its signal has fired, gets a slot when one is free, and else waits at the end. */
  lemma ArriveEffect(st: State, signal: Option<Signal>)
    requires Inv(st)
    ensures var t, n := Step(st, Arrive(signal)), |st.calls|;
      && |t.calls| == n + 1 && t.calls[..n] == st.calls && t.calls[n].signal == signal
      && t.max == st.max && t.aborted == st.aborted && t.calls[n].releases == 0
      && if signal.Some? && signal.value in st.aborted then
           && t.calls[n].phase == Rejected && t.calls[n].settlements == 1
           && t.active == st.active && t.waiting == st.waiting && t.listening == st.listening && t.grants == st.grants
         else if Holders(st.calls) < st.max then
           && t.calls[n].phase == Granted && t.calls[n].settlements == 1 && t.grants == st.grants + [n]
           && t.active == st.active + 1 && t.waiting == st.waiting && t.listening == st.listening
         else
           && t.calls[n].phase == Waiting && t.calls[n].settlements == 0 && t.grants == st.grants
           && t.active == st.active && t.waiting == st.waiting + [Waiter(n, signal)]
           && t.listening == st.listening + (if signal.Some? then {Waiter(n, signal)} else {})
  {
  }

  /** A signal that fires is remembered, and rejects the calls that wait on it, those and no others. */
  lemma AbortEffect(st: State, s: Signal)
    requires Inv(st) && s !in st.aborted
    ensures var t := Step(st, Abort(s));
      && t.aborted == st.aborted + {s} && |t.calls| == |st.calls|
      && t.max == st.max && t.active == st.active && t.grants == st.grants
      && (forall id :: 0 <= id < |st.calls| ==>
            var c, w := st.calls[id], Waiter(id, st.calls[id].signal);
            if c.phase.Waiting? && c.signal == Some(s)
            then t.calls[id] == Call(c.signal, Rejected, 1, 0) && w !in t.waiting && w !in t.listening
            else t.calls[id] == c && (w in t.waiting <==> w in st.waiting) && (w in t.listening <==> w in st.listening))
      && (forall w :: w in t.waiting || w in t.listening ==> w in st.waiting)
  {
    WithoutMembers(st.waiting, WaitersOn(st, s));
    forall id | 0 <= id < |st.calls| ensures Accounted(st, st.calls[id]) {}
  }

  /** A caller that resumes starts its process, which is doomed exactly when its signal has fired by then. */
  lemma ResumeEffect(st: State, id: CallId)
    requires Inv(st) && id < |st.calls| && st.calls[id].phase.Granted?
    ensures var t, c := Step(st, Resume(id)), st.calls[id];
      && t == st.(calls := t.calls) && OnlyChanges(st.calls, t.calls, id)
      && t.calls[id] == c.(phase := Running(c.signal.Some? && c.signal.value in st.aborted))
  {
  }

  /** A process ends as it ended; its slot goes to the longest waiting call, or is free again. */
  lemma ExitEffect(st: State, id: CallId, ok: bool)
    requires Inv(st) && id < |st.calls| && st.calls[id].phase.Running? && (ok ==> !st.calls[id].phase.doomed)
    ensures var t, c := Step(st, Exit(id, ok)), st.calls[id];
      && t.max == st.max && t.aborted == st.aborted && |t.calls| == |st.calls|
      && t.calls[id] == c.(phase := Finished(ok), releases := 1)
      && if st.waiting == [] then
           t.active == st.active - 1 && OnlyChanges(st.calls, t.calls, id)
           && t.waiting == [] && t.listening == st.listening && t.grants == st.grants
         else
           var w := st.waiting[0];
           && t.active == st.active && [w] + t.waiting == st.waiting && t.listening == st.listening - {w}
           && w.id < |st.calls| && w.id != id && t.calls[w.id] == st.calls[w.id].(phase := Granted, settlements := 1)
           && t.grants == st.grants + [w.id]
           && forall i :: 0 <= i < |st.calls| && i != id && i != w.id ==> t.calls[i] == st.calls[i]
  {
    assert Accounted(st, st.calls[id]);
    if st.waiting != [] {
      assert st.waiting[0] in st.waiting;
      assert Accounted(st, st.calls[st.waiting[0].id]);
    }
  }

  // ---------------------------------------------------------------- theorems over every run

  /** A state some sequence of arrivals, aborts, resumptions and exits leads to. */
  ghost predicate Reachable(st: State) {
    exists max: nat, events: seq<Event> :: 1 <= max && Run(Init(max), events) == st
  }

  lemma ReachableIsValid(st: State)
    requires Reachable(st)
    ensures Inv(st)
  {
    var max: nat, events: seq<Event> :| 1 <= max && Run(Init(max), events) == st;
    RunKeeps(Init(max), events);
  }

  /** The gate never over-commits, and nobody waits while a slot is free. */
  lemma NeverOverCommitted(st: State)
    requires Reachable(st)
    ensures st.active == Holders(st.calls) <= st.max
    ensures st.waiting != [] ==> st.active == st.max
    ensures (exists id :: 0 <= id < |st.calls| && st.calls[id].phase.Waiting?) ==> Holders(st.calls) == st.max
  {
    ReachableIsValid(st);
  }

  /** A call granted a slot is granted it before every later arrival; an earlier one not granted was rejected. */
  lemma ServedInArrivalOrder(st: State, earlier: CallId, later: CallId)
    requires Reachable(st)
    requires earlier < later < |st.calls| && WasGranted(st.calls[later])
    ensures st.calls[earlier].phase.Rejected? ||
            exists i, j :: 0 <= i < j < |st.grants| && st.grants[i] == earlier && st.grants[j] == later
  {
    ReachableIsValid(st);
    assert later in st.grants;
    if WasGranted(st.calls[earlier]) {
      assert earlier in st.grants;
      var i, j :| 0 <= i < |st.grants| && 0 <= j < |st.grants| && st.grants[i] == earlier && st.grants[j] == later;
      assert i < j;
    }
  }

  /** Each call is settled at most once, and exactly once as soon as it is out of the wait list. */
  lemma SettledOnce(st: State, id: CallId)
    requires Reachable(st) && id < |st.calls|
    ensures var c := st.calls[id];
      && c.settlements <= 1
      && (c.settlements == 0 <==> Waiter(id, c.signal) in st.waiting)
      && (Waiter(id, c.signal) in st.listening <==> c.settlements == 0 && c.signal.Some?)
      && c.releases == (if c.phase.Finished? then 1 else 0)
      && (c.phase.Rejected? ==> c.releases == 0 && id !in st.grants)
  {
    ReachableIsValid(st);
    assert Accounted(st, st.calls[id]);
  }

  /** Nobody waits on a fired signal, and no slot is given to a call whose signal had fired. */
  lemma FiredSignalsAreHonoured(st: State, ev: Event, id: CallId)
    requires Reachable(st)
    ensures forall w :: w in st.waiting ==> !HasFired(st, w.signal)
    ensures var t := Step(st, ev);
      id in t.grants && id !in st.grants ==>
        id < |t.calls| && !HasFired(st, t.calls[id].signal) && t.calls[id].phase.Granted?
  {
    ReachableIsValid(st);
    if st.waiting != [] { assert st.waiting[0] in st.waiting; }
  }

  /** A call on a fired signal that was not served is rejected and never served. */
  ghost predicate ShutOut(st: State, s: Signal, id: CallId) {
    && s in st.aborted
    && (id < |st.calls| && st.calls[id].signal == Some(s) ==> id !in st.grants && st.calls[id].phase.Rejected?)
  }

  lemma StepShutsOut(st: State, ev: Event, s: Signal, id: CallId)
    requires Inv(st) && ShutOut(st, s, id)
    ensures ShutOut(Step(st, ev), s, id)
  {
    if st.waiting != [] { assert st.waiting[0] in st.waiting; }
    assert forall g :: g in st.grants ==> g < |st.calls|;
  }

  lemma {:induction false} RunShutsOut(st: State, events: seq<Event>, s: Signal, id: CallId)
    requires Inv(st) && ShutOut(st, s, id)
    ensures ShutOut(Run(st, events), s, id)
    decreases |events|
  {
    if events != [] {
      StepKeeps(st, events[0]);
      StepShutsOut(st, events[0], s, id);
      RunShutsOut(Step(st, events[0]), events[1..], s, id);
    }
  }

  /**
   Once a signal has fired it stays so: over any events after it, a call on it that had no slot by
   then, whether it was waiting or arrives later, is rejected and never gets one, and a call that
   had one but had not started its process starts it doomed.
   */
  lemma AbortsAreFinal(st: State, s: Signal, events: seq<Event>, id: CallId)
    requires Inv(st)
    ensures var fin := Run(Step(st, Abort(s)), events);
      && s in fin.aborted
      && (id < |fin.calls| && fin.calls[id].signal == Some(s) && id !in st.grants ==>
            id !in fin.grants && fin.calls[id].phase.Rejected? && fin.calls[id].settlements == 1)
      && (id < |st.calls| && st.calls[id].signal == Some(s) && st.calls[id].phase.Granted? ==>
            id < |fin.calls| && fin.calls[id].phase in {Granted, Running(true), Finished(false)})
  {
    var t := Step(st, Abort(s));
    var fin := Run(t, events);
    StepKeeps(st, Abort(s));
    RunKeeps(t, events);
    if s !in st.aborted { AbortEffect(st, s); }
    if id < |st.calls| && st.calls[id].signal == Some(s) && st.calls[id].phase.Granted? {
      LateAbortLeavesThroughExec(t, events, id);
    }
    if id !in st.grants {
      NotServedIsShutOut(st, s, id);
      RunShutsOut(t, events, s, id);
    }
    AbortedStays(t, events, s);
    if id < |fin.calls| { assert Accounted(fin, fin.calls[id]); }
  }

  lemma NotServedIsShutOut(st: State, s: Signal, id: CallId)
    requires Inv(st) && id !in st.grants
    ensures ShutOut(Step(st, Abort(s)), s, id)
  {
    if s !in st.aborted { AbortEffect(st, s); }
    if id < |st.calls| && st.calls[id].phase.Waiting? { assert Waiter(id, st.calls[id].signal) in st.waiting; }
  }

  lemma {:induction false} AbortedStays(st: State, events: seq<Event>, s: Signal)
    requires s in st.aborted
    ensures s in Run(st, events).aborted
    decreases |events|
  {
    if events != [] { AbortedStays(Step(st, events[0]), events[1..], s); }
  }

  predicate Over(c: Call) {
    c.phase.Finished? || c.phase.Rejected?
  }

  lemma DrainedGateIsIdle(st: State)
    requires Reachable(st)
    requires forall id :: 0 <= id < |st.calls| ==> Over(st.calls[id])
    ensures st.active == 0 && st.waiting == [] && st.listening == {}
  {
    ReachableIsValid(st);
    HoldersNone(st.calls);
  }

  // ---------------------------------------------------------------- waiting is bounded

  /** How many slots are released while `events` run. */
  function Releases(st: State, events: seq<Event>): nat
    decreases |events|
  {
    if events == [] then 0
    else (if events[0].Exit? && Enabled(st, events[0]) then 1 else 0) + Releases(Step(st, events[0]), events[1..])
  }

  predicate SomeAbort(events: seq<Event>) {
    exists ev :: ev in events && ev.Abort?
  }

  /** Removing other waiters moves a waiter forward, or leaves it where it is. */
  lemma {:induction false} WithoutMovesUp(ws: seq<Waiter>, gone: set<Waiter>, k: nat) returns (j: nat)
    requires k < |ws| && ws[k] !in gone
    ensures j <= k && j < |Without(ws, gone)| && Without(ws, gone)[j] == ws[k]
  {
    if k == 0 { j := 0; } else {
      j := WithoutMovesUp(ws[1..], gone, k - 1);
      if ws[0] !in gone { j := j + 1; }
    }
  }

  /** One event moves a waiter whose signal does not fire by a place per release, into its slot from the front. */
  lemma StepAdvances(st: State, ev: Event, k: nat) returns (i: nat)
    requires Inv(st) && k < |st.waiting|
    requires ev.Abort? ==> st.waiting[k].signal != Some(ev.source)
    ensures var r := if ev.Exit? && Enabled(st, ev) then 1 else 0;
      if k < r then st.waiting[k].id in Step(st, ev).grants
      else i < |Step(st, ev).waiting| && Step(st, ev).waiting[i] == st.waiting[k]
           && i + r <= k && (i + r == k || ev.Abort?)
  {
    i := k;
    var next := Step(st, ev);
    if ev.Abort? && Enabled(st, ev) {
      i := WithoutMovesUp(st.waiting, WaitersOn(st, ev.source), k);
    } else if ev.Exit? && Enabled(st, ev) {
      if k == 0 { assert next.grants[|st.grants|] == st.waiting[0].id; } else { i := k - 1; }
    }
  }

  /**
   While the call at position `k` is not itself aborted, every release moves it forward: after `r`
   releases it has either been granted or waits at a position no greater than `k - r`, and
   exactly `k - r` when nobody was aborted.
   */
  lemma {:induction false} QueueAdvances(st: State, events: seq<Event>, k: nat) returns (j: nat)
    requires Inv(st) && k < |st.waiting|
    requires forall ev :: ev in events && ev.Abort? ==> st.waiting[k].signal != Some(ev.source)
    ensures var fin := Run(st, events); var r := Releases(st, events);
      || (st.waiting[k].id in fin.grants && (r > k || SomeAbort(events)))
      || (j < |fin.waiting| && fin.waiting[j] == st.waiting[k] && j + r <= k && (j + r == k || SomeAbort(events)))
    decreases |events|
  {
    if events == [] { return k; }
    var ev, rest := events[0], events[1..];
    assert ev in events && forall e :: e in rest ==> e in events;
    StepKeeps(st, ev);
    var i := StepAdvances(st, ev, k);
    if k == 0 && ev.Exit? && Enabled(st, ev) {
      GrantsOnlyGrow(Step(st, ev), rest, st.waiting[0].id);
      return 0;
    }
    j := QueueAdvances(Step(st, ev), rest, i);
  }

  lemma {:induction false} GrantsOnlyGrow(st: State, events: seq<Event>, id: CallId)
    requires id in st.grants
    ensures id in Run(st, events).grants
    decreases |events|
  {
    if events != [] { GrantsOnlyGrow(Step(st, events[0]), events[1..], id); }
  }

  lemma WaitingIsNotGranted(st: State)
    requires InOrder(st)
    ensures forall i :: 0 <= i < |st.waiting| ==> st.waiting[i].id !in st.grants
  {
    forall i | 0 <= i < |st.waiting| ensures st.waiting[i].id !in st.grants { assert st.waiting[i] in st.waiting; }
  }

  /** A waiting call at position `k` whose signal does not fire is granted by the (k+1)th release. */
  lemma GrantedWithinBound(st: State, events: seq<Event>, k: nat)
    requires Reachable(st) && k < |st.waiting|
    requires forall ev :: ev in events && ev.Abort? ==> st.waiting[k].signal != Some(ev.source)
    ensures Releases(st, events) > k ==> st.waiting[k].id in Run(st, events).grants
    ensures !SomeAbort(events) ==>
            (st.waiting[k].id in Run(st, events).grants <==> Releases(st, events) > k)
  {
    ReachableIsValid(st);
    var j := QueueAdvances(st, events, k);
    RunKeeps(st, events);
    WaitingIsNotGranted(Run(st, events));
  }

  /** No lost wake-up: while someone waits, a call holding a slot exists whose exit serves the head of the queue. */
  lemma NeverStuck(st: State) returns (holder: CallId)
    requires Reachable(st) && st.waiting != []
    ensures holder < |st.calls| && Holding(st.calls[holder])
    ensures st.waiting[0].id in Run(st, [Resume(holder), Exit(holder, false)]).grants
  {
    ReachableIsValid(st);
    holder := HoldersWitness(st.calls);
    var mid := Step(st, Resume(holder));
    StepKeeps(st, Resume(holder));
    assert st.waiting[0] in st.waiting;
    assert mid.waiting == st.waiting && Enabled(mid, Exit(holder, false));
    var fin := Step(mid, Exit(holder, false));
    assert fin.grants[|mid.grants|] == st.waiting[0].id;
    var evs := [Resume(holder), Exit(holder, false)];
    assert evs[1..] == [Exit(holder, false)] && evs[1..][1..] == [];
    assert Run(st, evs) == Run(mid, evs[1..]) == Run(fin, evs[1..][1..]) == fin;
  }

  /** The signal fired after the slot was given and before the process was started. */
  predicate TooLate(st: State, id: CallId) {
    && id < |st.calls|
    && HasFired(st, st.calls[id].signal)
    && (st.calls[id].phase.Granted? || st.calls[id].phase == Running(true) || st.calls[id].phase == Finished(false))
  }

  /** A call that was granted its slot, with as much of its story as no event can undo. */
  lemma StepKeepsGranted(st: State, ev: Event, id: CallId)
    requires Queued(st) && id < |st.calls| && WasGranted(st.calls[id])
    ensures var t := Step(st, ev);
      && id < |t.calls| && WasGranted(t.calls[id]) && t.calls[id].signal == st.calls[id].signal
      && (st.calls[id].phase.Finished? ==> t.calls[id] == st.calls[id])
      && (TooLate(st, id) ==> TooLate(t, id))
  {
    if st.waiting != [] { assert st.waiting[0] in st.waiting; }
  }

  /**
   Once granted, a call is never rejected, whenever its signal fires: it leaves through exec, and has
   released its slot exactly when it is finished.  One whose signal fired before the spawn cannot
   finish well, and what is finished stays as it is.
   */
  lemma {:induction false} LateAbortLeavesThroughExec(st: State, events: seq<Event>, id: CallId)
    requires Inv(st) && id < |st.calls| && WasGranted(st.calls[id])
    ensures var fin := Run(st, events);
      && id < |fin.calls| && (Holding(fin.calls[id]) || fin.calls[id].phase.Finished?)
      && fin.calls[id].signal == st.calls[id].signal && fin.calls[id].settlements == 1
      && fin.calls[id].releases == (if fin.calls[id].phase.Finished? then 1 else 0)
      && (st.calls[id].phase.Finished? ==> fin.calls[id] == st.calls[id])
      && (TooLate(st, id) ==> TooLate(fin, id))
    decreases |events|
  {
    if events == [] {
      assert Accounted(st, st.calls[id]);
    } else {
      StepKeeps(st, events[0]);
      StepKeepsGranted(st, events[0], id);
      LateAbortLeavesThroughExec(Step(st, events[0]), events[1..], id);
    }
  }

  // ---------------------------------------------------------------- the gate itself

  datatype Admission = Refused | Admitted | Queueing

  /** The first index of `w`, or -1, as Array.prototype.indexOf. */
  function IndexOf(ws: seq<Waiter>, w: Waiter): (k: int)
    ensures -1 <= k < |ws|
    ensures k == -1 <==> w !in ws
    ensures k >= 0 ==> ws[k] == w && w !in ws[..k]
  {
    if ws == [] then -1
    else if ws[0] == w then 0
    else
      var k := IndexOf(ws[1..], w);
      assert ws == [ws[0]] + ws[1..];
      if k == -1 then -1 else assert ws[..k + 1] == [ws[0]] + ws[1..][..k]; k + 1
  }

  lemma {:induction false} WithoutNone(ws: seq<Waiter>, gone: set<Waiter>)
    requires forall w :: w in ws ==> w !in gone
    ensures Without(ws, gone) == ws
  {
    if ws != [] { WithoutNone(ws[1..], gone); }
  }

  lemma {:induction false} SpliceIsWithout(ws: seq<Waiter>, k: nat)
    requires Sorted(ws) && k < |ws|
    ensures ws[..k] + ws[k + 1..] == Without(ws, {ws[k]})
  {
    if k == 0 {
      WithoutNone(ws[1..], {ws[0]});
    } else {
      SpliceIsWithout(ws[1..], k - 1);
      assert ws[..k] + ws[k + 1..] == [ws[0]] + (ws[1..][..k - 1] + ws[1..][k..]);
    }
  }

  lemma {:induction false} WithoutTwice(ws: seq<Waiter>, a: set<Waiter>, b: set<Waiter>)
    ensures Without(Without(ws, a), b) == Without(ws, a + b)
  {
    if ws != [] {
      WithoutTwice(ws[1..], a, b);
      if ws[0] !in a {
        assert Without(ws, a) == [ws[0]] + Without(ws[1..], a);
        assert Without(ws, a)[1..] == Without(ws[1..], a);
      } else {
        assert Without(ws, a) == Without(ws[1..], a);
      }
    }
  }

  /** The wait list is in arrival order and names calls by their own signals. */
  ghost predicate Lined(ws: seq<Waiter>, calls: seq<Call>) {
    && Sorted(ws)
    && forall w :: w in ws ==> w.id < |calls| && w.signal == calls[w.id].signal
  }

  /** Removing one more waiter from a partly dispatched abort. */
  lemma DispatchOne(ws: seq<Waiter>, calls: seq<Call>, gone: set<Waiter>, w: Waiter)
    requires Lined(ws, calls) && w in ws && w !in gone
    ensures Lined(Without(ws, gone), RejectAll(calls, gone)) && w in Without(ws, gone)
    ensures Without(Without(ws, gone), {w}) == Without(ws, gone + {w})
    ensures RejectAll(RejectAll(calls, gone), {w}) == RejectAll(calls, gone + {w})
  {
    WithoutMembers(ws, gone);
    WithoutTwice(ws, gone, {w});
  }

  lemma DispatchNone(ws: seq<Waiter>, calls: seq<Call>)
    ensures Without(ws, {}) == ws && RejectAll(calls, {}) == calls
  {
    WithoutNone(ws, {});
  }

  lemma HeardIsQueued(st: State, s: Signal)
    requires Inv(st)
    ensures Lined(st.waiting, st.calls)
    ensures (set w | w in st.listening && w.signal == Some(s)) == WaitersOn(st, s)
  {
  }

  class Gate {
    const max: nat
    var active: int
    var waiting: seq<Waiter>
    var listening: set<Waiter>
    var aborted: set<Signal>
    var arrivals: nat          // gives each waiter its identity
    ghost var calls: seq<Call>
    ghost var grants: seq<CallId>

    ghost function View(): State
      reads this
    {
      State(max, active, waiting, listening, aborted, calls, grants)
    }

    ghost predicate Valid()
      reads this
    {
      arrivals == |calls| && Inv(View())
    }

    constructor (max: nat)
      requires 1 <= max
      ensures Valid() && View() == Init(max)
    {
      this.max := max;
      active, waiting, listening, aborted, arrivals := 0, [], {}, {}, 0;
      calls, grants := [], [];
    }

    /** The synchronous part of a call, up to the promise it waits on. */
    method Acquire(signal: Option<Signal>) returns (answer: Admission)
      requires Valid()
      modifies this
      ensures Valid() && View() == Step(old(View()), Arrive(signal))
      ensures answer == match calls[|calls| - 1].phase
                        case Rejected => Refused
                        case Waiting => Queueing
                        case _ => Admitted
    {
      hide Inv;
      StepKeeps(View(), Arrive(signal));
      var id := arrivals;
      arrivals := arrivals + 1;
      if signal.Some? && signal.value in aborted {
        calls := calls + [Call(signal, Rejected, 1, 0)];
        return Refused;
      }
      if active < max {
        active := active + 1;
        calls, grants := calls + [Call(signal, Granted, 1, 0)], grants + [id];
        return Admitted;
      }
      var waiter := Waiter(id, signal);
      waiting := waiting + [waiter];
      if signal.Some? { listening := listening + {waiter}; }
      calls := calls + [Call(signal, Waiting, 0, 0)];
      return Queueing;
    }

    /** One waiter's abort listener. */
    method OnAbort(waiter: Waiter)
      requires Lined(waiting, calls) && waiter in waiting
      modifies this`waiting, this`listening, this`calls
      ensures waiting == Without(old(waiting), {waiter})
      ensures listening == old(listening) - {waiter}
      ensures calls == RejectAll(old(calls), {waiter})
    {
      var index := IndexOf(waiting, waiter);
      SpliceIsWithout(waiting, index);
      if index != -1 { waiting := waiting[..index] + waiting[index + 1..]; }
      listening := listening - {waiter};
      calls := calls[waiter.id := Settle(calls[waiter.id], Rejected)];
    }

    /** Calls the listeners one after another, in whatever order the signal holds them. */
    method Dispatch(listeners: set<Waiter>)
      requires Lined(waiting, calls) && forall w :: w in listeners ==> w in waiting
      modifies this`waiting, this`listening, this`calls
      ensures waiting == Without(old(waiting), listeners)
      ensures listening == old(listening) - listeners
      ensures calls == RejectAll(old(calls), listeners)
    {
      hide Without, RejectAll, Lined;
      ghost var start, gone := View(), {};
      var todo := listeners;
      DispatchNone(waiting, calls);
      while todo != {}
        invariant todo <= listeners && gone == listeners - todo
        invariant waiting == Without(start.waiting, gone)
        invariant listening == start.listening - gone
        invariant calls == RejectAll(start.calls, gone)
        decreases todo
      {
        var w :| w in todo;
        DispatchOne(start.waiting, start.calls, gone, w);
        OnAbort(w);
        todo, gone := todo - {w}, gone + {w};
      }
      assert gone == listeners;
    }

    /** A signal fires: it is aborted from here on, and every listener registered on it runs. */
    method Fire(source: Signal)
      requires Valid() && source !in aborted
      modifies this
      ensures Valid() && View() == Step(old(View()), Abort(source))
    {
      hide Inv, Without, RejectAll, Lined;
      StepKeeps(View(), Abort(source));
      HeardIsQueued(View(), source);
      aborted := aborted + {source};
      var listeners := set w | w in listening && w.signal == Some(source);
      Dispatch(listeners);
    }

    /** The awaiting caller resumes and starts its process. */
    ghost method Begin(id: CallId)
      requires Valid() && Enabled(View(), Resume(id))
      modifies this`calls
      ensures Valid() && View() == Step(old(View()), Resume(id))
    {
      StepKeeps(View(), Resume(id));
      calls := calls[id := calls[id].(phase := Running(HasFired(View(), calls[id].signal)))];
    }

    method Release()
      requires waiting != [] ==> waiting[0].id < |calls|
      modifies this`active, this`waiting, this`listening, this`calls, this`grants
      ensures View() == ReleaseStep(old(View()))
    {
      if waiting != [] {
        var next := waiting[0];
        waiting := waiting[1..];
        listening := listening - {next};
        calls, grants := calls[next.id := Settle(calls[next.id], Granted)], grants + [next.id];
      } else {
        active := active - 1;
      }
    }

    /** The process exits, however it does, and the `finally` releases its slot. */
    method Finish(ghost id: CallId, ghost ok: bool)
      requires Valid() && Enabled(View(), Exit(id, ok))
      modifies this
      ensures Valid() && View() == Step(old(View()), Exit(id, ok))
    {
      hide Inv;
      StepKeeps(View(), Exit(id, ok));
      calls := Exited(View(), id, ok).calls;
      Release();
    }
  }
}
