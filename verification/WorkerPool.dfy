/**
 The live check of the photo vendor: a pool of cooperative workers that share one cursor
 and one list of results, and the per-mode retry loop.

 A worker runs without interruption from one answer to its next request, so a run is a
 sequence of starts and answers in any order.
 */
module WorkerPool {
  import opened Text

  datatype Outcome = Picture | Failed(message: string)

  datatype Recorded = Recorded(i: nat, outcome: Outcome)

  datatype Worker = Unstarted | Busy(i: nat) | Done

  datatype State = State(count: nat, next: nat, workers: seq<Worker>, results: seq<Recorded>)

  datatype Event = Start(w: nat) | Answer(w: nat, outcome: Outcome)

  // ---------------------------------------------------------------- one worker's turn

  function Min(a: nat, b: nat): nat {
    if a < b then a else b
  }

  /** How many workers a batch has: none when the limit is zero or negative. */
  function Crew(count: nat, inFlight: int): nat {
    if inFlight < 0 then 0 else Min(inFlight, count)
  }

  /** A batch before any worker has started: no more workers than photos. */
  function Pool(count: nat, inFlight: int): State {
    State(count, 0, seq(Crew(count, inFlight), _ => Unstarted), [])
  }

  /** A worker claims the photo under the cursor, or is done when the cursor is past the last. */
  function Take(st: State, w: nat): State
    requires w < |st.workers|
  {
    st.(next := st.next + 1, workers := st.workers[w := if st.next < st.count then Busy(st.next) else Done])
  }

  predicate Enabled(st: State, ev: Event) {
    ev.w < |st.workers| && if ev.Start? then st.workers[ev.w].Unstarted? else st.workers[ev.w].Busy?
  }

  function Step(st: State, ev: Event): State
    requires Enabled(st, ev)
  {
    match ev
    case Start(w) => Take(st, w)
    case Answer(w, outcome) => Take(st.(results := st.results + [Recorded(st.workers[w].i, outcome)]), w)
  }

  /** `events` can happen one after the other, and lead to `end`. */
  ghost predicate Runs(st: State, events: seq<Event>, end: State)
    decreases |events|
  {
    if events == [] then end == st else Enabled(st, events[0]) && Runs(Step(st, events[0]), events[1..], end)
  }

  // ---------------------------------------------------------------- no photo lost, none twice

  function One(b: bool): nat {
    if b then 1 else 0
  }

  /** How often photo `i` was recorded. */
  function Times(results: seq<Recorded>, i: nat): nat {
    if results == [] then 0 else Times(results[..|results| - 1], i) + One(results[|results| - 1].i == i)
  }

  /** How many workers are at photo `i`. */
  function HeldBy(workers: seq<Worker>, i: nat): nat {
    if workers == [] then 0 else One(workers[0] == Busy(i)) + HeldBy(workers[1..], i)
  }

  function BusyCount(workers: seq<Worker>): nat {
    if workers == [] then 0 else One(workers[0].Busy?) + BusyCount(workers[1..])
  }

  function DoneCount(workers: seq<Worker>): nat {
    if workers == [] then 0 else One(workers[0].Done?) + DoneCount(workers[1..])
  }

  /** Every photo taken so far is recorded once or in one worker's hands; every further ticket ended a worker. */
  ghost predicate Inv(st: State) {
    && (forall i: nat :: Times(st.results, i) + HeldBy(st.workers, i) == One(i < Min(st.next, st.count)))
    && |st.results| + BusyCount(st.workers) == Min(st.next, st.count)
    && st.next == Min(st.next, st.count) + DoneCount(st.workers)
  }

  lemma {:induction false} ReplaceWorker(workers: seq<Worker>, w: nat, to: Worker, i: nat)
    requires w < |workers|
    ensures var after := workers[w := to];
      && HeldBy(after, i) + One(workers[w] == Busy(i)) == HeldBy(workers, i) + One(to == Busy(i))
      && BusyCount(after) + One(workers[w].Busy?) == BusyCount(workers) + One(to.Busy?)
      && DoneCount(after) + One(workers[w].Done?) == DoneCount(workers) + One(to.Done?)
  {
    if w > 0 {
      ReplaceWorker(workers[1..], w - 1, to, i);
      assert workers[w := to][1..] == workers[1..][w - 1 := to];
    } else {
      assert workers[w := to][1..] == workers[1..];
    }
  }

  lemma RecordOne(results: seq<Recorded>, r: Recorded, i: nat)
    ensures Times(results + [r], i) == Times(results, i) + One(r.i == i)
  {
    assert (results + [r])[..|results|] == results;
  }

  lemma StepKeeps(st: State, ev: Event)
    requires Inv(st) && Enabled(st, ev)
    ensures Inv(Step(st, ev))
  {
    hide HeldBy, Times, BusyCount, DoneCount;
    var t := Step(st, ev);
    ReplaceWorker(st.workers, ev.w, t.workers[ev.w], 0);
    forall i: nat ensures Times(t.results, i) + HeldBy(t.workers, i) == One(i < Min(t.next, t.count)) {
      ReplaceWorker(st.workers, ev.w, t.workers[ev.w], i);
      if ev.Answer? { RecordOne(st.results, Recorded(st.workers[ev.w].i, ev.outcome), i); }
    }
  }

  lemma {:induction false} CountBounds(workers: seq<Worker>)
    ensures BusyCount(workers) + DoneCount(workers) <= |workers|
    ensures DoneCount(workers) == |workers| <==> forall w :: 0 <= w < |workers| ==> workers[w].Done?
  {
    if workers != [] { CountBounds(workers[1..]); }
  }

  lemma {:induction false} NoneStarted(workers: seq<Worker>, i: nat)
    requires forall w :: 0 <= w < |workers| ==> workers[w].Unstarted?
    ensures DoneCount(workers) == BusyCount(workers) == HeldBy(workers, i) == 0
  {
    if workers != [] { NoneStarted(workers[1..], i); }
  }

  lemma PoolIsValid(count: nat, inFlight: int)
    ensures Inv(Pool(count, inFlight))
  {
    forall i: nat { NoneStarted(Pool(count, inFlight).workers, i); }
    NoneStarted(Pool(count, inFlight).workers, 0);
  }

  predicate AllDone(st: State) {
    forall w :: 0 <= w < |st.workers| ==> st.workers[w].Done?
  }

  lemma {:induction false} RunsKeep(st: State, events: seq<Event>, end: State)
    requires Inv(st) && Runs(st, events, end)
    ensures Inv(end) && end.count == st.count && |end.workers| == |st.workers| && end.next == st.next + |events|
    decreases |events|
  {
    if events != [] {
      StepKeeps(st, events[0]);
      RunsKeep(Step(st, events[0]), events[1..], end);
    }
  }

  /** No photo is recorded twice or in two hands, and no more are in progress than the limit allows. */
  lemma {:induction false} NoneTwice(count: nat, inFlight: int, events: seq<Event>, end: State, i: nat)
    requires Runs(Pool(count, inFlight), events, end)
    ensures Times(end.results, i) + HeldBy(end.workers, i) <= 1
    ensures Times(end.results, i) + HeldBy(end.workers, i) == 1 ==> i < count
    ensures BusyCount(end.workers) <= Crew(count, inFlight) <= count
  {
    PoolIsValid(count, inFlight);
    RunsKeep(Pool(count, inFlight), events, end);
    CountBounds(end.workers);
  }

  /** The workers start one after the other: the first `n` have a photo each in their hands. */
  lemma {:induction false} AllStart(count: nat, inFlight: int, n: nat) returns (events: seq<Event>, end: State)
    requires n <= Crew(count, inFlight)
    ensures Runs(Pool(count, inFlight), events, end) && end.count == count && end.next == n
    ensures end.workers == seq(Crew(count, inFlight), i requires 0 <= i => if i < n then Busy(i) else Unstarted)
  {
    events, end := [], Pool(count, inFlight);
    if n > 0 {
      events, end := AllStart(count, inFlight, n - 1);
      RunOneMore(Pool(count, inFlight), events, end, Start(n - 1));
      events, end := events + [Start(n - 1)], Step(end, Start(n - 1));
    }
  }

  lemma {:induction false} RunOneMore(st: State, events: seq<Event>, end: State, ev: Event)
    requires Runs(st, events, end) && Enabled(end, ev)
    ensures Runs(st, events + [ev], Step(end, ev))
    decreases |events|
  {
    if events == [] {
      assert [ev][1..] == [] && Runs(Step(st, ev), [], Step(end, ev));
    } else {
      RunOneMore(Step(st, events[0]), events[1..], end, ev);
      assert (events + [ev])[1..] == events[1..] + [ev];
    }
  }

  lemma {:induction false} AllBusy(workers: seq<Worker>)
    requires forall w :: 0 <= w < |workers| ==> workers[w].Busy?
    ensures BusyCount(workers) == |workers|
  {
    if workers != [] { AllBusy(workers[1..]); }
  }

  /** As many photos are in progress at once as the limit allows and the batch has, and never more. */
  lemma LimitIsReached(count: nat, inFlight: int) returns (events: seq<Event>, end: State)
    ensures Runs(Pool(count, inFlight), events, end)
    ensures BusyCount(end.workers) == if inFlight <= 0 then 0 else if inFlight <= count then inFlight else count
    ensures forall others, other :: Runs(Pool(count, inFlight), others, other) ==>
      BusyCount(other.workers) <= BusyCount(end.workers)
  {
    events, end := AllStart(count, inFlight, Crew(count, inFlight));
    AllBusy(end.workers);
    forall others, other | Runs(Pool(count, inFlight), others, other)
      ensures BusyCount(other.workers) <= BusyCount(end.workers)
    {
      NoneTwice(count, inFlight, others, other, 0);
    }
  }

  /** Every interleaving ends: it can go on until all are done, which takes one turn per photo and per worker. */
  lemma {:induction false} EveryRunEnds(count: nat, inFlight: int, events: seq<Event>, end: State)
    requires Runs(Pool(count, inFlight), events, end)
    ensures |events| <= count + Crew(count, inFlight)
    ensures inFlight >= 1 ==> (AllDone(end) <==> |events| == count + Crew(count, inFlight))
    ensures !AllDone(end) ==> exists ev :: Enabled(end, ev)
  {
    PoolIsValid(count, inFlight);
    RunsKeep(Pool(count, inFlight), events, end);
    CountBounds(end.workers);
    if !AllDone(end) {
      var w :| 0 <= w < |end.workers| && !end.workers[w].Done?;
      assert Enabled(end, if end.workers[w].Busy? then Answer(w, Picture) else Start(w));
    }
  }

  lemma {:induction false} NoneHeld(workers: seq<Worker>, i: nat)
    requires forall w :: 0 <= w < |workers| ==> workers[w].Done?
    ensures HeldBy(workers, i) == 0
  {
    if workers != [] { NoneHeld(workers[1..], i); }
  }

  lemma DoneMeansComplete(st: State)
    requires Inv(st) && AllDone(st) && (|st.workers| >= 1 || st.count == 0)
    ensures |st.results| == st.count && forall i: nat :: Times(st.results, i) == One(i < st.count)
  {
    CountBounds(st.workers);
    forall i: nat ensures HeldBy(st.workers, i) == 0 { NoneHeld(st.workers, i); }
  }

  /** When all workers are done every photo is recorded exactly once, provided there was a worker at all. */
  lemma {:induction false} NothingIsLost(count: nat, inFlight: int, events: seq<Event>, end: State)
    requires Runs(Pool(count, inFlight), events, end) && AllDone(end)
    ensures inFlight >= 1 ==> |end.results| == count && forall i: nat :: Times(end.results, i) == One(i < count)
    ensures inFlight < 1 ==> end.results == []
  {
    PoolIsValid(count, inFlight);
    RunsKeep(Pool(count, inFlight), events, end);
    if inFlight >= 1 { DoneMeansComplete(end); } else { CountBounds(end.workers); }
  }

  // ---------------------------------------------------------------- the batch

  predicate Contains(s: string, word: string) {
    exists k :: 0 <= k <= |s| && word <= s[k..]
  }

  datatype Kind = Good | Limited | Other

  /** How a photo is counted: its message tells a rate limit from any other failure. */
  function KindOf(o: Outcome): Kind {
    if o.Picture? then Good
    else if Contains(o.message, "429") || Contains(LowerAll(o.message), "rate") then Limited
    else Other
  }

  lemma ContainsWhere(s: string, word: string)
    ensures Contains(s, word) <==> exists a, b :: s == a + word + b
  {
    if Contains(s, word) {
      var k :| 0 <= k <= |s| && word <= s[k..];
      assert s == s[..k] + word + s[k + |word|..];
    }
    if a, b :| s == a + word + b { assert s[|a|..] == word + b; }
  }

  lemma LowerThree(a: string, word: string, b: string)
    ensures LowerAll(a + word + b) == LowerAll(a) + LowerAll(word) + LowerAll(b)
  {
  }

  lemma MiddleIs(s: string, x: string, small: string, y: string) returns (a: string, word: string, b: string)
    requires LowerAll(s) == x + small + y
    ensures s == a + word + b && LowerAll(word) == small
  {
    a, word, b := s[..|x|], s[|x|..|x| + |small|], s[|x| + |small|..];
    assert s == a + word + b;
    LowerThree(a, word, b);
    hide LowerAll;
    assert (x + small + y)[|x|..|x| + |small|] == small;
    assert (LowerAll(a) + LowerAll(word) + LowerAll(b))[|x|..|x| + |small|] == LowerAll(word);
  }

  lemma ContainsInAnyCase(s: string, small: string)
    requires NoCapitals(small)
    ensures Contains(LowerAll(s), small) <==> Mentions(s, small)
  {
    ContainsWhere(LowerAll(s), small);
    hide Contains, LowerAll, SameLetters, NoCapitals;
    if x, y :| LowerAll(s) == x + small + y {
      var a, word, b := MiddleIs(s, x, small, y);
      LowerIsSameLetters(word, small);
    }
    if a, word, b :| s == a + word + b && SameLetters(word, small) {
      LowerIsSameLetters(word, small);
      LowerThree(a, word, b);
    }
  }

  /** What came back is good; a failure that says 429, or rate in any case, is a rate limit; the rest are others. */
  lemma KindsByMessage(o: Outcome)
    ensures KindOf(o) == Good <==> o.Picture?
    ensures KindOf(o) == Limited <==>
      o.Failed? && ((exists a, b :: o.message == a + "429" + b) || Mentions(o.message, "rate"))
  {
    if o.Failed? {
      ContainsWhere(o.message, "429");
      ContainsInAnyCase(o.message, "rate");
    }
  }

  function Select(results: seq<Recorded>, kind: Kind): seq<Recorded> {
    if results == [] then []
    else Select(results[..|results| - 1], kind)
         + (if KindOf(results[|results| - 1].outcome) == kind then [results[|results| - 1]] else [])
  }

  predicate FromVendor(results: seq<Recorded>, vendor: nat -> Outcome) {
    forall r :: r in results ==> r.outcome == vendor(r.i)
  }

  lemma {:induction false} SelectTimes(results: seq<Recorded>, kind: Kind, vendor: nat -> Outcome, i: nat)
    requires FromVendor(results, vendor)
    ensures Times(Select(results, kind), i) == if KindOf(vendor(i)) == kind then Times(results, i) else 0
  {
    if results != [] {
      var n := |results| - 1;
      assert results[n] in results;
      SelectTimes(results[..n], kind, vendor, i);
      if KindOf(results[n].outcome) == kind { RecordOne(Select(results[..n], kind), results[n], i); }
      else { assert Select(results, kind) == Select(results[..n], kind); }
    }
  }

  lemma {:induction false} SelectFromVendor(results: seq<Recorded>, kind: Kind, vendor: nat -> Outcome)
    requires FromVendor(results, vendor)
    ensures FromVendor(Select(results, kind), vendor)
  {
    if results != [] { SelectFromVendor(results[..|results| - 1], kind, vendor); }
  }

  lemma {:induction false} SelectPartitions(results: seq<Recorded>)
    ensures |Select(results, Good)| + |Select(results, Limited)| + |Select(results, Other)| == |results|
  {
    if results != [] { SelectPartitions(results[..|results| - 1]); }
  }

  lemma {:induction false} SelectAll(results: seq<Recorded>, vendor: nat -> Outcome)
    requires FromVendor(results, vendor)
    requires forall r :: r in results ==> vendor(r.i).Picture?
    ensures Select(results, Good) == results
  {
    if results != [] {
      var n := |results| - 1;
      assert results[n] in results;
      SelectAll(results[..n], vendor);
      assert results == results[..n] + [results[n]];
    }
  }

  lemma {:induction false} RecordedOnlyOf(results: seq<Recorded>, count: nat)
    requires forall i: nat :: Times(results, i) == One(i < count)
    ensures forall r :: r in results ==> r.i < count
  {
    forall r | r in results ensures r.i < count { TimesOfMember(results, r); }
  }

  lemma {:induction false} TimesOfMember(results: seq<Recorded>, r: Recorded)
    requires r in results
    ensures Times(results, r.i) >= 1
  {
    var n := |results| - 1;
    if results[n] != r { TimesOfMember(results[..n], r); }
  }

  lemma SelectExactly(results: seq<Recorded>, count: nat, kind: Kind, vendor: nat -> Outcome)
    requires FromVendor(results, vendor)
    requires forall i: nat :: Times(results, i) == One(i < count)
    ensures forall i: nat :: Times(Select(results, kind), i) == One(i < count && KindOf(vendor(i)) == kind)
  {
    forall i: nat ensures Times(Select(results, kind), i) == One(i < count && KindOf(vendor(i)) == kind) {
      SelectTimes(results, kind, vendor, i);
    }
  }

  /** Everything came back exactly when every photo did. */
  lemma AllGood(results: seq<Recorded>, vendor: nat -> Outcome, count: nat)
    requires FromVendor(results, vendor) && |results| == count
    requires forall i: nat :: Times(results, i) == One(i < count)
    ensures |Select(results, Good)| == count <==> forall i: nat :: i < count ==> vendor(i).Picture?
  {
    SelectPartitions(results);
    RecordedOnlyOf(results, count);
    if forall i: nat :: i < count ==> vendor(i).Picture? {
      SelectAll(results, vendor);
    } else {
      var i: nat :| i < count && !vendor(i).Picture?;
      SelectTimes(results, KindOf(vendor(i)), vendor, i);
    }
  }

  /** The workers, taking turns in any order until all are done. */
  method RunPool(count: nat, inFlight: int, vendor: nat -> Outcome) returns (results: seq<Recorded>)
    ensures FromVendor(results, vendor)
    ensures inFlight >= 1 ==> |results| == count && forall i: nat :: Times(results, i) == One(i < count)
    ensures inFlight < 1 ==> results == []
  {
    hide Inv;
    var next := 0;
    var workers: seq<Worker> := seq(Crew(count, inFlight), _ => Unstarted);
    results := [];
    PoolIsValid(count, inFlight);
    while exists w :: 0 <= w < |workers| && !workers[w].Done?
      invariant Inv(State(count, next, workers, results)) && |workers| == Crew(count, inFlight)
      invariant FromVendor(results, vendor)
      invariant |workers| == 0 ==> results == []
      decreases count + |workers| - next
    {
      var w :| 0 <= w < |workers| && !workers[w].Done?;
      ghost var st := State(count, next, workers, results);
      ghost var ev := if workers[w].Busy? then Answer(w, vendor(workers[w].i)) else Start(w);
      StepKeeps(st, ev);
      TicketsLeft(Step(st, ev));
      if workers[w].Busy? { results := results + [Recorded(workers[w].i, vendor(workers[w].i))]; }
      var i := next;
      next := next + 1;
      workers := workers[w := if i < count then Busy(i) else Done];
      assert State(count, next, workers, results) == Step(st, ev);
    }
    if inFlight >= 1 { DoneMeansComplete(State(count, next, workers, results)); }
  }

  lemma TicketsLeft(st: State)
    requires Inv(st)
    ensures st.next <= st.count + |st.workers|
  {
    CountBounds(st.workers);
  }

  /**
   A folder of `count` photos, `inFlight` at a time, in whatever order the vendor answers: every
   photo ends in exactly one of the three lists, the one its answer belongs to.
   */
  method Batch(count: nat, inFlight: int, vendor: nat -> Outcome)
    returns (good: seq<Recorded>, limited: seq<Recorded>, other: seq<Recorded>, exitCode: int)
    ensures inFlight >= 1 ==> forall i: nat ::
      && Times(good, i) == One(i < count && KindOf(vendor(i)) == Good)
      && Times(limited, i) == One(i < count && KindOf(vendor(i)) == Limited)
      && Times(other, i) == One(i < count && KindOf(vendor(i)) == Other)
    ensures FromVendor(good, vendor) && FromVendor(limited, vendor) && FromVendor(other, vendor)
    ensures inFlight >= 1 ==> |good| + |limited| + |other| == count
    ensures exitCode == 0 || exitCode == 1
    ensures inFlight >= 1 ==> (exitCode == 0 <==> forall i: nat :: i < count ==> vendor(i).Picture?)
    ensures inFlight < 1 ==> good == limited == other == [] && (exitCode == 0 <==> count == 0)
  {
    hide Select, Times, KindOf;
    var results := RunPool(count, inFlight, vendor);
    good, limited, other := Select(results, Good), Select(results, Limited), Select(results, Other);
    exitCode := if |good| == count then 0 else 1;
    SelectPartitions(results);
    SelectFromVendor(results, Good, vendor);
    SelectFromVendor(results, Limited, vendor);
    SelectFromVendor(results, Other, vendor);
    if inFlight >= 1 {
      SelectExactly(results, count, Good, vendor);
      SelectExactly(results, count, Limited, vendor);
      SelectExactly(results, count, Other, vendor);
      AllGood(results, vendor, count);
    }
  }

  // ---------------------------------------------------------------- the retry loop

  const RETRIES := 3

  predicate Digit(c: char) {
    '0' <= c <= '9'
  }

  predicate VendorError(message: string) {
    exists k :: 0 <= k <= |message| - 8 && "HTTP 5" <= message[k..] && Digit(message[k + 6]) && Digit(message[k + 7])
  }

  predicate KeyRejected(message: string) {
    Contains(LowerAll(message), "http 401") || Contains(LowerAll(message), "could not be authenticated")
  }

  /** HTTP and a three-digit code starting with 5. */
  predicate VendorCode(code: string) {
    |code| == 8 && code[..6] == "HTTP 5" && code[6] in "0123456789" && code[7] in "0123456789"
  }

  lemma VendorCodeAt(message: string, k: nat)
    requires k + 8 <= |message|
    ensures VendorCode(message[k..k + 8])
            <==> "HTTP 5" <= message[k..] && Digit(message[k + 6]) && Digit(message[k + 7])
  {
    assert forall c: char :: c in "0123456789" <==> Digit(c);
    assert message[k..k + 8][..6] == message[k..][..6];
  }

  lemma VendorCodeFound(message: string) returns (a: string, code: string, b: string)
    requires VendorError(message)
    ensures message == a + code + b && VendorCode(code)
  {
    var k :| 0 <= k <= |message| - 8 && "HTTP 5" <= message[k..] && Digit(message[k + 6]) && Digit(message[k + 7]);
    VendorCodeAt(message, k);
    hide Digit, VendorCode;
    a, code, b := message[..k], message[k..k + 8], message[k + 8..];
  }

  lemma VendorCodeCounts(a: string, code: string, b: string)
    requires VendorCode(code)
    ensures VendorError(a + code + b)
  {
    var message := a + code + b;
    assert message[|a|..|a| + 8] == code;
    VendorCodeAt(message, |a|);
    hide Digit, VendorCode;
  }

  /** A vendor error is a message with such a code in it. */
  lemma VendorErrorsByMessage(message: string)
    ensures VendorError(message) <==> exists a, code, b :: message == a + code + b && VendorCode(code)
  {
    hide VendorError, VendorCode;
    if VendorError(message) { var a, code, b := VendorCodeFound(message); }
    if a, code, b :| message == a + code + b && VendorCode(code) { VendorCodeCounts(a, code, b); }
  }

  /** A rejected key is one of two phrases, in any case. */
  lemma RejectionsByMessage(message: string)
    ensures KeyRejected(message) <==> Mentions(message, "http 401") || Mentions(message, "could not be authenticated")
  {
    ContainsInAnyCase(message, "http 401");
    ContainsInAnyCase(message, "could not be authenticated");
  }

  predicate WorthRetrying(o: Outcome) {
    o.Failed? && VendorError(o.message)
  }

  /** One mode: the vendor's answer that decides it, after at most three tries, all the earlier ones vendor errors. */
  method Attempt(vendor: nat -> Outcome) returns (tries: nat, verdict: Outcome)
    ensures 1 <= tries <= 3 && verdict == vendor(tries)
    ensures forall k :: 1 <= k < tries ==> WorthRetrying(vendor(k))
    ensures WorthRetrying(verdict) ==> tries == 3
  {
    tries := 0;
    while true
      invariant 0 <= tries < RETRIES
      invariant forall k :: 1 <= k <= tries ==> WorthRetrying(vendor(k))
      decreases RETRIES - tries
    {
      tries := tries + 1;
      verdict := vendor(tries);
      if verdict.Picture? || !VendorError(verdict.message) || tries >= RETRIES { return; }
    }
  }

  /** The answer that decides a mode. */
  function Verdict(vendor: nat -> Outcome): Outcome {
    if !WorthRetrying(vendor(1)) then vendor(1) else if !WorthRetrying(vendor(2)) then vendor(2) else vendor(3)
  }

  predicate Rejected(o: Outcome) {
    o.Failed? && KeyRejected(o.message)
  }

  /**
   All modes in turn; `accepted(m)` says whether the schema takes mode `m`.  A rejected key ends
   the run at once with code 2; otherwise the code is 0 exactly when every mode gave a picture.
   */
  method VerifyModes(modes: nat, accepted: nat -> bool, vendor: nat -> (nat -> Outcome)) returns (exitCode: int)
    ensures exitCode == 2 <==> exists m: nat :: m < modes && accepted(m) && Rejected(Verdict(vendor(m)))
    ensures exitCode == 0 <==> forall m: nat :: m < modes ==> accepted(m) && Verdict(vendor(m)).Picture?
    ensures 0 <= exitCode <= 2
  {
    var good := 0;
    for m := 0 to modes
      invariant forall k: nat :: k < m && accepted(k) ==> !Rejected(Verdict(vendor(k)))
      invariant good <= m && (good == m <==> forall k: nat :: k < m ==> accepted(k) && Verdict(vendor(k)).Picture?)
    {
      if accepted(m) {
        var tries, verdict := Attempt(vendor(m));
        assert verdict == Verdict(vendor(m));
        if verdict.Picture? {
          good := good + 1;
        } else if KeyRejected(verdict.message) {
          assert Rejected(Verdict(vendor(m)));
          return 2;
        }
      }
    }
    exitCode := if good == modes then 0 else 1;
  }
}
