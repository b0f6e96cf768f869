/**
 What every signed-in screen shares: the workspace that is active, the credits it shows,
 and the answers from the ledger still on their way.

 `Step` gives the meaning of each callback on values, `AppProvider` performs it on fields.
 The counter that guards against late answers is judged against `Shown`, which reads the
 balance off the log of what happened without any counter.

 A workspace switch is one step together with the React commit and the effect cleanup it
 causes.  Refreshes and switches go through the closure of some render, perhaps an old one:
 a refresh asks about the workspace that render showed, and a switch compares with that
 workspace and looks types up in the membership list of that render.
 */
module AppContext {
  import opened Text
  import opened HostRouting

  datatype Workspace = Workspace(id: string, kind: string)

  /** A wallet summary as received, or none that could be read, or a failed request. */
  datatype Answer =
    | Summary(figure: Option<int>, postpaid: bool, paused: bool, available: int)
    | Nothing
    | Failure

  datatype Pending = Pending(ticket: nat, id: string)

  datatype Line = Line(postpaid: bool, paused: bool)

  datatype Departure = HandOff(id: string) | Welcome

  /** What a switch knows: the members and the active workspace of the render it was taken from. */
  datatype Render = Render(workspaces: seq<Workspace>, active: string)

  datatype Entry =
    | Reset
    | Moved(id: string)
    | Issued(request: Pending)
    | Answered(reply: Pending, answer: Answer)
    | Spent(credits: int)
    | Refunded(credits: int)
    | Put(figure: int)

  datatype State = State(
    host: string,
    members: Option<seq<Workspace>>,
    active: Option<string>,
    counter: nat,
    pending: set<Pending>,
    balance: Option<int>,
    line: Line,
    sent: Option<Departure>,     // where the page was sent because nothing of theirs is here
    handOff: Option<string>,     // the last workspace a switch asked the other host for
    log: seq<Entry>)

  datatype Event =
    | Boot(workspaces: seq<Workspace>, preferred: Option<string>)
    | ReadMembers(workspaces: seq<Workspace>)
    | Switch(seen: Render, id: string, kind: Option<string>)
    | Refresh(closure: string)
    | Deliver(reply: Pending, answer: Answer)
    | Spend(credits: int)
    | Refund(credits: int)
    | SetBalance(figure: int)

  const NO_LINE := Line(false, false)

  // ---------------------------------------------------------------- membership

  function PortalFor(kind: string): Portal {
    if kind == "ORGANIZATION" then OrgPortal else AppPortal
  }

  predicate BelongsHere(host: string, kind: string) {
    IsLocalHost(host) || PortalFor(kind) == PortalOf(host)
  }

  function Find(ws: seq<Workspace>, id: string): (r: Option<Workspace>)
    ensures r.Some? ==> r.value in ws && r.value.id == id
    ensures r.None? ==> forall w :: w in ws ==> w.id != id
  {
    if ws == [] then None else if ws[0].id == id then Some(ws[0]) else Find(ws[1..], id)
  }

  function Here(host: string, ws: seq<Workspace>): (r: seq<Workspace>)
    ensures forall w :: w in r <==> w in ws && BelongsHere(host, w.kind)
  {
    if ws == [] then []
    else (if BelongsHere(host, ws[0].kind) then [ws[0]] else []) + Here(host, ws[1..])
  }

  /** The preferred workspace if it is in the list, else the first. */
  function Pick(ws: seq<Workspace>, preferred: Option<string>): (r: Option<Workspace>)
    ensures r.Some? ==> r.value in ws
    ensures r.None? <==> ws == []
  {
    var found := if preferred.Some? then Find(ws, preferred.value) else None;
    if found.Some? then found else if ws == [] then None else Some(ws[0])
  }

  // ---------------------------------------------------------------- the parts of a step

  function Initial(host: string): State {
    State(host, None, None, 0, {}, None, NO_LINE, None, None, [])
  }

  function Forget(st: State): State {
    st.(counter := st.counter + 1, balance := None, line := NO_LINE, log := st.log + [Reset])
  }

  /** React commits a new active workspace and runs the old effect's cleanup. */
  function Commit(st: State, id: string): State {
    st.(active := Some(id), counter := st.counter + 1, log := st.log + [Moved(id)])
  }

  function Issue(st: State, id: string): State {
    var p := Pending(st.counter + 1, id);
    st.(counter := p.ticket, pending := st.pending + {p}, log := st.log + [Issued(p)])
  }

  /** Nothing of theirs lives here: on to the other host, or to the welcome page. */
  function Leave(st: State, preferred: Option<string>): State
    requires st.members.Some?
  {
    var elsewhere := Pick(st.members.value, preferred);
    st.(sent := Some(if elsewhere.Some? then HandOff(elsewhere.value.id) else Welcome))
  }

  /** The effects of a new active workspace: the repair of one that is not a member, then the refresh. */
  function Land(st: State, id: string): State
    requires st.members.Some?
  {
    var a := Commit(st, id);
    if Find(st.members.value, id).Some? then Issue(a, id)
    else
      var here := Here(st.host, st.members.value);
      if here == [] then Issue(Leave(Forget(a), None), id)
      else Issue(Commit(Issue(Forget(a), id), here[0].id), here[0].id)
  }

  /** The repair effect after the membership list was read again. */
  function Repair(st: State): State
    requires st.members.Some?
  {
    if st.active.None? || Find(st.members.value, st.active.value).Some? then st
    else
      var here := Here(st.host, st.members.value);
      if here == [] then Leave(Forget(st), None)
      else Issue(Commit(Forget(st), here[0].id), here[0].id)
  }

  function Amount(a: Answer): Option<int> {
    if a.Summary? && a.figure.Some? then Some(if a.postpaid then a.available else a.figure.value) else None
  }

  function LineOf(a: Answer): Line {
    if a.Summary? then Line(a.postpaid, a.paused) else NO_LINE
  }

  function Receive(st: State, p: Pending, a: Answer): State {
    var t := st.(pending := st.pending - {p}, log := st.log + [Answered(p, a)]);
    if a.Failure? || p.ticket != st.counter then t else t.(balance := Amount(a), line := LineOf(a))
  }

  /** Is a switch refused because, as far as its render knows, the workspace lives on the other host? */
  predicate Refused(host: string, seen: Render, id: string, kind: Option<string>) {
    var found := Find(seen.workspaces, id);
    var known := if kind.Some? then kind.value else if found.Some? then found.value.kind else "";
    known != "" && !BelongsHere(host, known)
  }

  /** A switch carried out: choosing the workspace that is already active commits nothing and asks nothing. */
  function Enter(st: State, id: string): State
    requires st.members.Some?
  {
    if st.active == Some(id) then Forget(st) else Land(Forget(st), id)
  }

  function SwitchStep(st: State, seen: Render, id: string, kind: Option<string>): State
    requires st.members.Some?
  {
    if id == seen.active then st
    else if Refused(st.host, seen, id, kind) then st.(handOff := Some(id))
    else Enter(st, id)
  }

  predicate Enabled(st: State, ev: Event) {
    match ev
    case Boot(_, _) => st.members.None?
    case Switch(_, _, _) => st.members.Some? && st.active.Some?
    case Deliver(p, _) => p in st.pending
    case _ => st.members.Some?
  }

  function Adjusted(b: Option<int>, change: int): Option<int> {
    if b.None? then b else Some(b.value + change)
  }

  function Step(st: State, ev: Event): State {
    if !Enabled(st, ev) then st else
    match ev
    case Boot(ws, preferred) =>
      var t := st.(members := Some(ws));
      var first := Pick(Here(st.host, ws), preferred);
      if first.Some? then Land(t, first.value.id) else Leave(t, preferred)
    case ReadMembers(ws) => Repair(st.(members := Some(ws)))
    case Switch(seen, id, kind) => SwitchStep(st, seen, id, kind)
    case Refresh(id) => Issue(st, id)
    case Deliver(p, a) => Receive(st, p, a)
    case Spend(c) => st.(balance := Adjusted(st.balance, -c), log := st.log + [Spent(c)])
    case Refund(c) => st.(balance := Adjusted(st.balance, c), log := st.log + [Refunded(c)])
    case SetBalance(n) => st.(balance := Some(n), log := st.log + [Put(n)])
  }

  function Run(st: State, events: seq<Event>): State
    decreases |events|
  {
    if events == [] then st else Run(Step(st, events[0]), events[1..])
  }

  // ---------------------------------------------------------------- what each event does, read off the lists

  /** Organizations live on hosts that start with `org.`, everyone else on others, and all of them on this machine. */
  ghost predicate Suits(host: string, kind: string) {
    ThisMachine(host) || (kind == "ORGANIZATION" <==> "org." <= host)
  }

  lemma BelongsMeansSuits(host: string, kind: string)
    ensures BelongsHere(host, kind) <==> Suits(host, kind)
  {
    LocalMeansThisMachine(host);
  }

  ghost predicate FirstSuiting(host: string, ws: seq<Workspace>, i: nat) {
    i < |ws| && Suits(host, ws[i].kind) && forall j :: 0 <= j < i ==> !Suits(host, ws[j].kind)
  }

  ghost predicate NoneSuits(host: string, ws: seq<Workspace>) {
    forall i :: 0 <= i < |ws| ==> !Suits(host, ws[i].kind)
  }

  predicate FirstCalled(ws: seq<Workspace>, id: string, i: nat) {
    i < |ws| && ws[i].id == id && forall j :: 0 <= j < i ==> ws[j].id != id
  }

  predicate Lists(ws: seq<Workspace>, id: string) {
    exists i :: 0 <= i < |ws| && ws[i].id == id
  }

  lemma {:induction false} FindIsFirst(ws: seq<Workspace>, id: string)
    ensures Find(ws, id).Some? <==> Lists(ws, id)
    ensures forall i: nat :: FirstCalled(ws, id, i) ==> Find(ws, id) == Some(ws[i])
    ensures Lists(ws, id) ==> exists i: nat :: FirstCalled(ws, id, i)
  {
    if ws != [] {
      FindIsFirst(ws[1..], id);
      forall i: nat | FirstCalled(ws, id, i) ensures Find(ws, id) == Some(ws[i]) {
        if i > 0 { assert FirstCalled(ws[1..], id, i - 1); }
      }
      if ws[0].id == id {
        assert FirstCalled(ws, id, 0);
      } else if Lists(ws, id) {
        assert Lists(ws[1..], id);
        var i: nat :| FirstCalled(ws[1..], id, i);
        assert FirstCalled(ws, id, i + 1);
      }
    }
  }

  lemma {:induction false} HereStarts(host: string, ws: seq<Workspace>) returns (i: nat)
    ensures if Here(host, ws) == [] then NoneSuits(host, ws)
            else FirstSuiting(host, ws, i) && Here(host, ws)[0] == ws[i]
  {
    i := 0;
    if ws != [] {
      BelongsMeansSuits(host, ws[0].kind);
      hide Suits, BelongsHere;
      if !Suits(host, ws[0].kind) {
        assert Here(host, ws) == Here(host, ws[1..]);
        var k := HereStarts(host, ws[1..]);
        forall j | 0 < j < |ws| ensures ws[j] == ws[1..][j - 1] {}
        i := k + 1;
      }
    }
  }

  lemma HereInOrder(host: string, ws: seq<Workspace>)
    ensures forall i: nat :: FirstSuiting(host, ws, i) ==> Here(host, ws) != [] && Here(host, ws)[0] == ws[i]
    ensures NoneSuits(host, ws) <==> Here(host, ws) == []
  {
    var k := HereStarts(host, ws);
    hide Suits, Here;
  }

  /** The page shows workspace `id`, no balance yet, and the answer it awaits is about that workspace. */
  predicate Opened(t: State, id: string) {
    t.active == Some(id) && t.balance == None && t.line == Line(false, false) && Pending(t.counter, id) in t.pending
  }

  /** Where a page goes on which nothing suits. */
  function Elsewhere(ws: seq<Workspace>, preferred: Option<string>): Departure {
    if ws == [] then Welcome
    else if preferred.Some? && Lists(ws, preferred.value) then HandOff(preferred.value)
    else HandOff(ws[0].id)
  }

  lemma LeaveGoesElsewhere(st: State, preferred: Option<string>)
    requires st.members.Some?
    ensures Leave(st, preferred) == st.(sent := Some(Elsewhere(st.members.value, preferred)))
  {
    if preferred.Some? { FindIsFirst(st.members.value, preferred.value); }
  }

  lemma BootOpens(st: State, ws: seq<Workspace>, preferred: Option<string>)
    requires st.members.None? && Blank(st)
    ensures var t, first := Step(st, Boot(ws, preferred)), Pick(Here(st.host, ws), preferred);
      && t.members == Some(ws) && t.host == st.host && t.handOff == st.handOff
      && if first.Some? then Opened(t, first.value.id) && t.sent == st.sent
         else t == st.(members := Some(ws), sent := Some(Elsewhere(ws, preferred)))
  {
    LeaveGoesElsewhere(st.(members := Some(ws)), preferred);
    var first := Pick(Here(st.host, ws), preferred);
    hide Elsewhere, Leave, BelongsHere;
    if first.Some? { assert first.value in ws; }
  }

  /** A workspace with the preferred id suits this host. */
  ghost predicate AskedFor(host: string, ws: seq<Workspace>, preferred: Option<string>) {
    preferred.Some? && exists i :: 0 <= i < |ws| && ws[i].id == preferred.value && Suits(host, ws[i].kind)
  }

  lemma PickSuits(host: string, ws: seq<Workspace>, preferred: Option<string>)
    ensures var first := Pick(Here(host, ws), preferred);
      && (NoneSuits(host, ws) <==> first.None?)
      && (AskedFor(host, ws, preferred) ==> first.Some? && first.value.id == preferred.value)
      && (!AskedFor(host, ws, preferred) ==> forall i: nat :: FirstSuiting(host, ws, i) ==> first == Some(ws[i]))
  {
    HereInOrder(host, ws);
    forall w | w in ws ensures BelongsHere(host, w.kind) <==> Suits(host, w.kind) { BelongsMeansSuits(host, w.kind); }
    hide Suits, BelongsHere, FirstSuiting, NoneSuits;
    if preferred.Some? {
      var found := Find(Here(host, ws), preferred.value);
      if found.Some? { assert found.value in ws; }
      if AskedFor(host, ws, preferred) {
        var i :| 0 <= i < |ws| && ws[i].id == preferred.value && Suits(host, ws[i].kind);
        assert ws[i] in Here(host, ws);
      }
    }
  }

  /**
   Boot opens the preferred workspace if it suits this host, else the first that does; if none does
   the page goes to the host of the preferred one, of the first, or to the welcome page.
   */
  lemma BootEffect(st: State, ws: seq<Workspace>, preferred: Option<string>)
    requires st.members.None? && Blank(st)
    ensures var t, asked := Step(st, Boot(ws, preferred)), AskedFor(st.host, ws, preferred);
      && t.members == Some(ws) && t.host == st.host && t.handOff == st.handOff
      && (asked ==> Opened(t, preferred.value) && t.sent == st.sent)
      && (!asked ==> forall i: nat :: FirstSuiting(st.host, ws, i) ==> Opened(t, ws[i].id) && t.sent == st.sent)
      && (NoneSuits(st.host, ws) ==> t == st.(members := Some(ws), sent := Some(Elsewhere(ws, preferred))))
  {
    BootOpens(st, ws, preferred);
    PickSuits(st.host, ws, preferred);
    forall i: nat | FirstSuiting(st.host, ws, i) ensures !NoneSuits(st.host, ws) {}
    hide Step, Pick, AskedFor, FirstSuiting, NoneSuits, Elsewhere, Opened;
  }

  /** A re-read of the members that still lists the active workspace changes nothing else; any other moves the page. */
  lemma ReadMembersEffect(st: State, ws: seq<Workspace>)
    requires st.members.Some?
    ensures var t := Step(st, ReadMembers(ws));
      if st.active.None? || Lists(ws, st.active.value) then t == st.(members := Some(ws))
      else
        && t.members == Some(ws) && t.host == st.host && t.handOff == st.handOff
        && (forall i: nat :: FirstSuiting(st.host, ws, i) ==> Opened(t, ws[i].id) && t.sent == st.sent)
        && (NoneSuits(st.host, ws) ==>
              && t.active == st.active && Blank(t) && t.pending == st.pending && t.counter == st.counter + 1
              && t.sent == Some(Elsewhere(ws, None)))
  {
    if st.active.Some? { FindIsFirst(ws, st.active.value); }
    HereInOrder(st.host, ws);
    LeaveGoesElsewhere(Forget(st.(members := Some(ws))), None);
    hide Suits, Elsewhere, Leave, Here, Find;
  }

  /** The type a switch goes by: the caller's, else that of the first workspace of this id its render listed. */
  ghost predicate GoesBy(seen: Render, id: string, kind: Option<string>, known: string) {
    || kind == Some(known)
    || (kind.None? && exists i: nat :: FirstCalled(seen.workspaces, id, i) && seen.workspaces[i].kind == known)
  }

  ghost predicate LivesElsewhere(host: string, seen: Render, id: string, kind: Option<string>) {
    exists known: string :: GoesBy(seen, id, kind, known) && known != "" && !Suits(host, known)
  }

  lemma RefusedMeansElsewhere(host: string, seen: Render, id: string, kind: Option<string>)
    ensures Refused(host, seen, id, kind) <==> LivesElsewhere(host, seen, id, kind)
  {
    FindIsFirst(seen.workspaces, id);
    var found := Find(seen.workspaces, id);
    if kind.Some? {
      assert GoesBy(seen, id, kind, kind.value);
      BelongsMeansSuits(host, kind.value);
    } else if found.Some? {
      var i: nat :| FirstCalled(seen.workspaces, id, i);
      assert GoesBy(seen, id, kind, found.value.kind);
      BelongsMeansSuits(host, found.value.kind);
    }
  }

  /**
   A switch to the workspace its render showed does nothing, one to a workspace that by its type lives
   elsewhere only asks for the hand-off, and any other forgets the balance and opens the workspace, or
   the first that suits when it is no member.
   */
  lemma SwitchEffect(st: State, seen: Render, id: string, kind: Option<string>)
    requires st.members.Some? && st.active.Some?
    ensures var t, ws := Step(st, Switch(seen, id, kind)), st.members.value;
      if id == seen.active then t == st
      else if LivesElsewhere(st.host, seen, id, kind) then t == st.(handOff := Some(id))
      else if st.active == Some(id) then
        t == st.(counter := st.counter + 1, balance := None, line := Line(false, false), log := t.log)
      else
        && t.members == st.members && t.host == st.host && t.handOff == st.handOff
        && (Lists(ws, id) ==> Opened(t, id) && t.sent == st.sent)
        && (!Lists(ws, id) ==>
              forall i: nat :: FirstSuiting(st.host, ws, i) ==> Opened(t, ws[i].id) && t.sent == st.sent)
        && (!Lists(ws, id) && NoneSuits(st.host, ws) ==> Opened(t, id) && t.sent == Some(Elsewhere(ws, None)))
  {
    RefusedMeansElsewhere(st.host, seen, id, kind);
    FindIsFirst(st.members.value, id);
    HereInOrder(st.host, st.members.value);
    LeaveGoesElsewhere(Forget(Commit(Forget(st), id)), None);
    hide Refused, LivesElsewhere, Suits, Elsewhere, Leave, Here, Find;
  }

  /** A refresh sends one request with a ticket of its own, which from then on is the one awaited. */
  lemma RefreshEffect(st: State, closure: string)
    requires st.members.Some?
    ensures var t, p := Step(st, Refresh(closure)), Pending(st.counter + 1, closure);
      t == st.(counter := st.counter + 1, pending := st.pending + {p}, log := st.log + [Issued(p)])
  {
  }

  /** Only the latest ticket's answer is shown: the balance, or the room left on the line of a postpaid workspace. */
  lemma DeliverEffect(st: State, p: Pending, a: Answer)
    requires p in st.pending
    ensures var t := Step(st, Deliver(p, a));
      && t == st.(pending := st.pending - {p}, log := st.log + [Answered(p, a)], balance := t.balance, line := t.line)
      && (p.ticket != st.counter || a == Failure ==> t.balance == st.balance && t.line == st.line)
      && (p.ticket == st.counter && a == Nothing ==> t.balance == None && t.line == Line(false, false))
      && forall figure: Option<int>, postpaid, paused, available ::
           p.ticket == st.counter && a == Summary(figure, postpaid, paused, available) ==>
             && t.line == Line(postpaid, paused) && (t.balance == None <==> figure == None)
             && (figure.Some? ==> t.balance == if postpaid then Some(available) else figure)
  {
  }

  /** Spends, refunds and explicit figures move the balance by what they say, and nothing else. */
  lemma MoneyEffect(st: State, n: int)
    requires st.members.Some?
    ensures Step(st, SetBalance(n)) == st.(balance := Some(n), log := st.log + [Put(n)])
    ensures Step(st, Spend(n)).log == st.log + [Spent(n)] && Step(st, Refund(n)).log == st.log + [Refunded(n)]
    ensures Step(st, Spend(n)) == st.(balance := Step(st, Spend(n)).balance, log := st.log + [Spent(n)])
    ensures Step(st, Refund(n)) == st.(balance := Step(st, Refund(n)).balance, log := st.log + [Refunded(n)])
    ensures st.balance.None? ==> Step(st, Spend(n)).balance == Step(st, Refund(n)).balance == None
    ensures st.balance.Some? ==>
      && Step(st, Spend(n)).balance == Some(st.balance.value - n)
      && Step(st, Refund(n)).balance == Some(st.balance.value + n)
  {
  }

  // ---------------------------------------------------------------- the balance as the log tells it

  function Last(log: seq<Entry>): Entry
    requires log != []
  {
    log[|log| - 1]
  }

  function Before(log: seq<Entry>): seq<Entry>
    requires log != []
  {
    log[..|log| - 1]
  }

  /** The one request whose answer counts: the latest, unless the page moved on since. */
  function Awaited(log: seq<Entry>): Option<Pending> {
    if log == [] then None else
    match Last(log)
    case Issued(p) => Some(p)
    case Reset => None
    case Moved(_) => None
    case _ => Awaited(Before(log))
  }

  function ActiveIn(log: seq<Entry>): Option<string> {
    if log == [] then None else if Last(log).Moved? then Some(Last(log).id) else ActiveIn(Before(log))
  }

  /** The last entry is an answer that counts. */
  predicate Accepted(log: seq<Entry>)
    requires log != []
  {
    Last(log).Answered? && !Last(log).answer.Failure? && Awaited(Before(log)) == Some(Last(log).reply)
  }

  function Shown(log: seq<Entry>): Option<int> {
    if log == [] then None else
    match Last(log)
    case Reset => None
    case Moved(_) => None
    case Issued(_) => Shown(Before(log))
    case Answered(_, a) => if Accepted(log) then Amount(a) else Shown(Before(log))
    case Spent(c) => Adjusted(Shown(Before(log)), -c)
    case Refunded(c) => Adjusted(Shown(Before(log)), c)
    case Put(n) => Some(n)
  }

  function ShownLine(log: seq<Entry>): Line {
    if log == [] || Last(log).Reset? || Last(log).Moved? then NO_LINE
    else if Accepted(log) then LineOf(Last(log).answer)
    else ShownLine(Before(log))
  }

  // ---------------------------------------------------------------- the counter does what the log says

  ghost predicate Faithful(st: State) {
    && st.balance == Shown(st.log)
    && st.line == ShownLine(st.log)
    && st.active == ActiveIn(st.log)
  }

  ghost predicate Guarded(st: State) {
    && (forall p :: p in st.pending ==> p.ticket <= st.counter)
    && (forall p :: p in st.pending && p.ticket == st.counter ==> Awaited(st.log) == Some(p))
    && (Awaited(st.log).Some? ==> Awaited(st.log).value.ticket == st.counter)
  }

  ghost predicate Inv(st: State) {
    && Faithful(st)
    && Guarded(st)
    && (st.members.None? ==> Blank(st) && st.pending == {})
  }

  /** What one more entry changes in every reading of the log. */
  lemma Appended(log: seq<Entry>, e: Entry)
    ensures Last(log + [e]) == e && Before(log + [e]) == log
    ensures Awaited(log + [e]) ==
      (if e.Issued? then Some(e.request) else if e.Reset? || e.Moved? then None else Awaited(log))
    ensures ActiveIn(log + [e]) == (if e.Moved? then Some(e.id) else ActiveIn(log))
    ensures Accepted(log + [e]) <==> e.Answered? && !e.answer.Failure? && Awaited(log) == Some(e.reply)
    ensures ShownLine(log + [e]) ==
      (if e.Reset? || e.Moved? then NO_LINE else if Accepted(log + [e]) then LineOf(e.answer) else ShownLine(log))
    ensures Shown(log + [e]) ==
      (if e.Reset? || e.Moved? then None
       else if e.Put? then Some(e.figure)
       else if e.Spent? then Adjusted(Shown(log), -e.credits)
       else if e.Refunded? then Adjusted(Shown(log), e.credits)
       else if Accepted(log + [e]) then Amount(e.answer)
       else Shown(log))
  {
  }

  predicate Blank(st: State) {
    st.balance == None && st.line == NO_LINE
  }

  lemma ForgetKeeps(st: State)
    requires Inv(st)
    ensures Inv(Forget(st)) && Blank(Forget(st))
  {
    hide Awaited, ActiveIn, Accepted, Shown, ShownLine;
    Appended(st.log, Reset);
  }

  lemma CommitKeeps(st: State, id: string)
    requires Inv(st) && Blank(st)
    ensures Inv(Commit(st, id)) && Blank(Commit(st, id))
  {
    hide Awaited, ActiveIn, Accepted, Shown, ShownLine;
    Appended(st.log, Moved(id));
  }

  lemma IssueKeeps(st: State, id: string)
    requires Inv(st) && st.members.Some?
    ensures Inv(Issue(st, id)) && (Blank(st) ==> Blank(Issue(st, id)))
  {
    hide Awaited, ActiveIn, Accepted, Shown, ShownLine;
    Appended(st.log, Issued(Pending(st.counter + 1, id)));
  }

  lemma LandKeeps(st: State, id: string)
    requires Inv(st) && Blank(st) && st.members.Some?
    ensures Inv(Land(st, id))
  {
    hide Inv;
    var a := Commit(st, id);
    var here := Here(st.host, st.members.value);
    CommitKeeps(st, id);
    IssueKeeps(a, id);
    ForgetKeeps(a);
    LeaveKeeps(Forget(a), None);
    IssueKeeps(Leave(Forget(a), None), id);
    IssueKeeps(Forget(a), id);
    if here != [] {
      CommitKeeps(Issue(Forget(a), id), here[0].id);
      IssueKeeps(Commit(Issue(Forget(a), id), here[0].id), here[0].id);
    }
  }

  lemma LeaveKeeps(st: State, preferred: Option<string>)
    requires Inv(st) && st.members.Some?
    ensures Inv(Leave(st, preferred))
  {
  }

  lemma RepairKeeps(st: State)
    requires Inv(st) && st.members.Some?
    ensures Inv(Repair(st))
  {
    hide Inv;
    var here := Here(st.host, st.members.value);
    ForgetKeeps(st);
    LeaveKeeps(Forget(st), None);
    if here != [] {
      CommitKeeps(Forget(st), here[0].id);
      IssueKeeps(Commit(Forget(st), here[0].id), here[0].id);
    }
  }

  lemma ReceiveKeeps(st: State, p: Pending, a: Answer)
    requires Inv(st) && p in st.pending && st.members.Some?
    ensures Inv(Receive(st, p, a))
  {
    hide Awaited, ActiveIn, Accepted, Shown, ShownLine;
    Appended(st.log, Answered(p, a));
  }

  lemma AdjustKeeps(st: State, e: Entry, b: Option<int>)
    requires Inv(st) && st.members.Some?
    requires match e
             case Spent(c) => b == Adjusted(st.balance, -c)
             case Refunded(c) => b == Adjusted(st.balance, c)
             case Put(n) => b == Some(n)
             case _ => false
    ensures Inv(st.(balance := b, log := st.log + [e]))
  {
    hide Awaited, ActiveIn, Accepted, Shown, ShownLine;
    Appended(st.log, e);
  }

  lemma StepKeeps(st: State, ev: Event)
    requires Inv(st)
    ensures Inv(Step(st, ev))
  {
    if Enabled(st, ev) {
      match ev
      case Boot(ws, preferred) =>
        var t := st.(members := Some(ws));
        var first := Pick(Here(st.host, ws), preferred);
        if first.Some? { LandKeeps(t, first.value.id); } else { LeaveKeeps(t, preferred); }
      case ReadMembers(ws) => RepairKeeps(st.(members := Some(ws)));
      case Switch(_, id, _) => ForgetKeeps(st); LandKeeps(Forget(st), id);
      case Refresh(id) => IssueKeeps(st, id);
      case Deliver(p, a) => ReceiveKeeps(st, p, a);
      case Spend(c) => AdjustKeeps(st, Spent(c), Adjusted(st.balance, -c));
      case Refund(c) => AdjustKeeps(st, Refunded(c), Adjusted(st.balance, c));
      case SetBalance(n) => AdjustKeeps(st, Put(n), Some(n));
    }
  }

  /** No event moves the page to another host: a hand-off is only recorded. */
  lemma SameHost(st: State, ev: Event)
    ensures Step(st, ev).host == st.host
  {}

  lemma {:induction false} RunKeeps(st: State, events: seq<Event>)
    requires Inv(st)
    ensures Inv(Run(st, events)) && Run(st, events).host == st.host
    decreases |events|
  {
    if events != [] {
      StepKeeps(st, events[0]);
      SameHost(st, events[0]);
      RunKeeps(Step(st, events[0]), events[1..]);
    }
  }

  // ---------------------------------------------------------------- what a shown balance means

  ghost predicate Reachable(st: State) {
    exists host: string, events: seq<Event> :: Run(Initial(host), events) == st
  }

  lemma ReachableIsValid(st: State)
    requires Reachable(st)
    ensures Inv(st)
  {
    var host: string, events: seq<Event> :| Run(Initial(host), events) == st;
    RunKeeps(Initial(host), events);
  }

  /** Entry `k` put a figure on the screen: an explicit one, or an answer that counted. */
  predicate Anchors(log: seq<Entry>, k: nat)
    requires k < |log|
  {
    log[k].Put? || Accepted(log[..k + 1])
  }

  function Figure(e: Entry): Option<int> {
    match e
    case Put(n) => Some(n)
    case Answered(_, a) => Amount(a)
    case _ => None
  }

  /** Refunds less spends. */
  function Drift(log: seq<Entry>): int {
    if log == [] then 0
    else Drift(Before(log)) + Change(Last(log))
  }

  /** After entry `k` nothing else put a figure on the screen or took it off. */
  ghost predicate StandsSince(log: seq<Entry>, k: nat) {
    forall i :: k < i < |log| ==> !Anchors(log, i) && !log[i].Reset? && !log[i].Moved?
  }

  lemma AnchorsBefore(log: seq<Entry>)
    requires log != []
    ensures forall i :: 0 <= i < |log| - 1 ==> Anchors(log, i) == Anchors(Before(log), i)
  {
    forall i | 0 <= i < |log| - 1 ensures Anchors(log, i) == Anchors(Before(log), i) {
      assert log[..i + 1] == Before(log)[..i + 1];
    }
  }

  /** What an entry adds to the figure. */
  function Change(e: Entry): int {
    if e.Spent? then -e.credits else if e.Refunded? then e.credits else 0
  }

  lemma DriftAppended(log: seq<Entry>, e: Entry)
    ensures Drift(log + [e]) == Drift(log) + Change(e)
  {
    assert Last(log + [e]) == e && Before(log + [e]) == log;
  }

  lemma ShownAppended(log: seq<Entry>, e: Entry)
    requires Shown(log + [e]).Some? && !e.Put? && !Accepted(log + [e])
    ensures Shown(log).Some? && Shown(log + [e]).value == Shown(log).value + Change(e) && !e.Reset? && !e.Moved?
  {
    Appended(log, e);
    hide Shown, Accepted;
  }

  lemma StandsOn(log: seq<Entry>, e: Entry, k: nat)
    requires k < |log| && Anchors(log, k) && StandsSince(log, k)
    requires !e.Put? && !Accepted(log + [e]) && !e.Reset? && !e.Moved?
    ensures Anchors(log + [e], k) && StandsSince(log + [e], k)
  {
    assert Before(log + [e]) == log && (log + [e])[..|log| + 1] == log + [e];
    AnchorsBefore(log + [e]);
    hide Accepted;
  }

  lemma {:induction false} ShownIsAnchored(log: seq<Entry>) returns (k: nat)
    requires Shown(log).Some?
    ensures k < |log| && Anchors(log, k) && StandsSince(log, k)
    ensures Figure(log[k]).Some? && Shown(log).value == Figure(log[k]).value + Drift(log[k + 1..])
  {
    var n := |log| - 1;
    var before, e := Before(log), Last(log);
    assert log == before + [e] && log[..n + 1] == log;
    hide Shown, Accepted, Drift;
    if e.Put? || Accepted(log) {
      k := n;
      EmptyDrift();
      AcceptedFigure(log);
      assert log[k + 1..] == [];
    } else {
      ShownAppended(before, e);
      k := ShownIsAnchored(before);
      StandsOn(before, e, k);
      assert log[k + 1..] == before[k + 1..] + [e];
      DriftAppended(before[k + 1..], e);
    }
  }

  lemma EmptyDrift()
    ensures Drift([]) == 0
  {
  }

  lemma AcceptedFigure(log: seq<Entry>)
    requires log != [] && (Last(log).Put? || Accepted(log))
    ensures Figure(Last(log)) == Shown(log)
  {
  }

  lemma {:induction false} LineStands(log: seq<Entry>, k: nat)
    requires k < |log| && Accepted(log[..k + 1]) && StandsSince(log, k)
    ensures ShownLine(log) == LineOf(log[k].answer)
  {
    var n := |log| - 1;
    assert log[..n + 1] == log;
    if k < n {
      assert !Anchors(log, n);
      AnchorsBefore(log);
      assert Before(log)[..k + 1] == log[..k + 1];
      LineStands(Before(log), k);
    }
  }

  /** The awaited request was issued at some entry, with no move since: the active workspace is the one of that time. */
  lemma {:induction false} AwaitedSince(log: seq<Entry>) returns (j: nat)
    requires Awaited(log).Some?
    ensures j < |log| && log[j] == Issued(Awaited(log).value) && ActiveIn(log) == ActiveIn(log[..j])
  {
    var n := |log| - 1;
    if Last(log).Issued? {
      j := n;
    } else {
      j := AwaitedSince(Before(log));
      assert Before(log)[..j] == log[..j];
    }
  }

  lemma {:induction false} ActiveStands(log: seq<Entry>, k: nat)
    requires k <= |log| && forall i :: k <= i < |log| ==> !log[i].Moved?
    ensures ActiveIn(log) == ActiveIn(log[..k])
  {
    if k == |log| {
      assert log[..k] == log;
    } else {
      ActiveStands(Before(log), k);
      assert Before(log)[..k] == log[..k];
    }
  }

  // ---------------------------------------------------------------- whose balance it is

  /** A refresh through the closure of a render that showed another workspace than the active one. */
  predicate Stale(st: State, ev: Event) {
    ev.Refresh? && Enabled(st, ev) && st.active != Some(ev.closure)
  }

  /** The requests that stale refreshes send while `events` run. */
  function StaleAsks(st: State, events: seq<Event>): set<Pending>
    decreases |events|
  {
    if events == [] then {}
    else
      (if Stale(st, events[0]) then {Pending(st.counter + 1, events[0].closure)} else {})
      + StaleAsks(Step(st, events[0]), events[1..])
  }

  predicate Tracked(st: State) {
    st.active == ActiveIn(st.log)
  }

  /** Was entry `j` a request for the workspace active at the time, and not another's? */
  predicate Own(log: seq<Entry>, j: nat)
    requires j < |log| && log[j].Issued?
  {
    ActiveIn(log[..j]) == Some(log[j].request.id)
  }

  /** From `s` to `t` the log grew by requests with new tickets, every one its workspace's own unless `stale`. */
  ghost predicate Grew(s: State, t: State, stale: bool) {
    && s.log <= t.log && s.counter <= t.counter && Tracked(t)
    && forall j :: |s.log| <= j < |t.log| && t.log[j].Issued? ==>
         s.counter < t.log[j].request.ticket <= t.counter && (Own(t.log, j) <==> !stale)
  }

  /** One entry at the end of the log, which is no request. */
  lemma GrewByEntry(s: State, t: State, e: Entry)
    requires Tracked(s) && t.log == s.log + [e] && s.counter <= t.counter && !e.Issued?
    requires t.active == if e.Moved? then Some(e.id) else s.active
    ensures Grew(s, t, false)
  {
    Appended(s.log, e);
  }

  lemma GrewByRequest(s: State, id: string)
    requires Tracked(s)
    ensures Tracked(Issue(s, id)) && Grew(s, Issue(s, id), s.active != Some(id))
  {
    var t := Issue(s, id);
    Appended(s.log, Issued(Pending(s.counter + 1, id)));
    assert t.log[..|s.log|] == s.log;
  }

  lemma GrewTwice(s: State, t: State, u: State)
    requires Grew(s, t, false) && Grew(t, u, false)
    ensures Grew(s, u, false)
  {
    hide ActiveIn;
    forall j | |s.log| <= j < |u.log| && u.log[j].Issued?
      ensures s.counter < u.log[j].request.ticket <= u.counter && Own(u.log, j)
    {
      if j < |t.log| { assert t.log[j] == u.log[j] && t.log[..j] == u.log[..j]; }
    }
  }

  /** A move to a workspace and the refresh that follows it. */
  lemma MoveGrows(st: State, id: string)
    requires Tracked(st)
    ensures Grew(st, Issue(Commit(st, id), id), false)
    ensures Tracked(Commit(st, id)) && Grew(st, Commit(st, id), false)
  {
    hide ActiveIn, Own;
    GrewByEntry(st, Commit(st, id), Moved(id));
    GrewByRequest(Commit(st, id), id);
    GrewTwice(st, Commit(st, id), Issue(Commit(st, id), id));
  }

  lemma ForgetGrows(st: State)
    requires Tracked(st)
    ensures Tracked(Forget(st)) && Grew(st, Forget(st), false)
  {
    GrewByEntry(st, Forget(st), Reset);
  }

  lemma LeaveGrows(s: State, t: State, preferred: Option<string>)
    requires Grew(s, t, false) && t.members.Some?
    ensures Grew(s, Leave(t, preferred), false)
  {
  }

  lemma LandGrows(st: State, id: string)
    requires Tracked(st) && st.members.Some?
    ensures Grew(st, Land(st, id), false)
  {
    var a := Commit(st, id);
    var here := Here(st.host, st.members.value);
    MoveGrows(st, id);
    ForgetGrows(a);
    hide Tracked, Grew, Find, Here;
    GrewTwice(st, a, Forget(a));
    GrewByRequest(Forget(a), id);
    var i := Issue(Forget(a), id);
    GrewTwice(st, Forget(a), i);
    if here != [] {
      MoveGrows(i, here[0].id);
      GrewTwice(st, i, Issue(Commit(i, here[0].id), here[0].id));
    } else {
      LeaveGrows(st, i, None);
      assert Leave(i, None) == Issue(Leave(Forget(a), None), id);
    }
  }

  lemma RepairGrows(st: State)
    requires Tracked(st) && st.members.Some?
    ensures Grew(st, Repair(st), false)
  {
    var here := Here(st.host, st.members.value);
    ForgetGrows(st);
    hide ActiveIn, Own, Find, Here;
    if here != [] {
      MoveGrows(Forget(st), here[0].id);
      GrewTwice(st, Forget(st), Issue(Commit(Forget(st), here[0].id), here[0].id));
    }
  }

  lemma ReceiveGrows(st: State, p: Pending, a: Answer)
    requires Tracked(st)
    ensures Grew(st, Receive(st, p, a), false)
  {
    GrewByEntry(st, Receive(st, p, a), Answered(p, a));
  }

  /** What boot, a switch or a repair asks is for the workspace active at the time; only a stale refresh is not. */
  lemma StepGrows(st: State, ev: Event)
    requires Tracked(st)
    ensures Grew(st, Step(st, ev), Stale(st, ev))
  {
    hide ActiveIn, Own, Land, Repair, Find, Here;
    if Enabled(st, ev) {
      match ev
      case Boot(ws, preferred) =>
        var t := st.(members := Some(ws));
        var first := Pick(Here(st.host, ws), preferred);
        if first.Some? { LandGrows(t, first.value.id); }
      case ReadMembers(ws) => RepairGrows(st.(members := Some(ws)));
      case Switch(_, id, _) =>
        ForgetGrows(st);
        LandGrows(Forget(st), id);
        GrewTwice(st, Forget(st), Land(Forget(st), id));
      case Refresh(id) => GrewByRequest(st, id);
      case Deliver(p, a) => ReceiveGrows(st, p, a);
      case Spend(c) => GrewByEntry(st, Step(st, ev), Spent(c));
      case Refund(c) => GrewByEntry(st, Step(st, ev), Refunded(c));
      case SetBalance(n) => GrewByEntry(st, Step(st, ev), Put(n));
    }
  }

  /** Over any run, a request is its workspace's own exactly when no stale refresh sent it. */
  lemma {:induction false} RunGrows(st: State, events: seq<Event>)
    requires Tracked(st)
    ensures var end := Run(st, events);
      && st.log <= end.log && st.counter <= end.counter
      && (forall p :: p in StaleAsks(st, events) ==> st.counter < p.ticket)
      && (forall j :: |st.log| <= j < |end.log| && end.log[j].Issued? ==>
            && st.counter < end.log[j].request.ticket
            && (Own(end.log, j) <==> end.log[j].request !in StaleAsks(st, events)))
    decreases |events|
  {
    hide ActiveIn;
    if events != [] {
      var next, end := Step(st, events[0]), Run(st, events);
      StepGrows(st, events[0]);
      RunGrows(next, events[1..]);
      hide Step;
      forall j | |st.log| <= j < |end.log| && end.log[j].Issued?
        ensures st.counter < end.log[j].request.ticket
        ensures Own(end.log, j) <==> end.log[j].request !in StaleAsks(st, events)
      {
        if j < |next.log| { assert next.log[j] == end.log[j] && next.log[..j] == end.log[..j]; }
      }
    }
  }

  /** The figure behind a balance from the ledger, and the request it answers. */
  lemma AnsweredFigure(log: seq<Entry>, k: nat) returns (j: nat)
    requires k < |log| && Anchors(log, k) && StandsSince(log, k) && log[k].Answered? && Figure(log[k]).Some?
    ensures j < k && log[j] == Issued(log[k].reply)
    ensures ActiveIn(log) == Some(log[k].reply.id) <==> Own(log, j)
    ensures log[k].answer.Summary? && ShownLine(log) == Line(log[k].answer.postpaid, log[k].answer.paused)
    ensures Figure(log[k])
            == if log[k].answer.postpaid then Some(log[k].answer.available) else log[k].answer.figure
  {
    var before := log[..k];
    assert Before(log[..k + 1]) == before && Last(log[..k + 1]) == log[k];
    j := AwaitedSince(before);
    assert before[..j] == log[..j];
    ActiveStands(log, k);
    LineStands(log, k);
  }

  /**
   Whenever a balance is shown, it is the last figure put up since the page last moved, less later
   spends plus later refunds, in whatever order answers arrived.  When that figure came from the
   ledger, it is the active workspace's exactly if the request was not a stale refresh's.
   */
  lemma BalanceIsTheLastFigure(host: string, events: seq<Event>) returns (k: nat, j: nat)
    requires Run(Initial(host), events).balance.Some?
    ensures var st := Run(Initial(host), events);
      && k < |st.log| && Anchors(st.log, k) && StandsSince(st.log, k)
      && Figure(st.log[k]).Some? && st.balance.value == Figure(st.log[k]).value + Drift(st.log[k + 1..])
      && (st.log[k].Answered? ==>
            && st.log[k].answer.Summary? && st.line == Line(st.log[k].answer.postpaid, st.log[k].answer.paused)
            && Figure(st.log[k]) ==
                 (if st.line.postpaid then Some(st.log[k].answer.available) else st.log[k].answer.figure)
            && j < k && st.log[j] == Issued(st.log[k].reply)
            && (st.active == Some(st.log[k].reply.id) <==> Own(st.log, j))
            && (st.active == Some(st.log[k].reply.id) <==> st.log[k].reply !in StaleAsks(Initial(host), events)))
  {
    var st := Run(Initial(host), events);
    RunKeeps(Initial(host), events);
    RunGrows(Initial(host), events);
    k := ShownIsAnchored(st.log);
    hide Run, StaleAsks, Shown, ShownLine, ActiveIn, Awaited, Accepted, Anchors, StandsSince, Drift, Guarded, Own;
    j := 0;
    if st.log[k].Answered? { j := AnsweredFigure(st.log, k); }
  }

  lemma {:induction false} NothingStale(st: State, events: seq<Event>)
    requires forall i :: 0 <= i < |events| ==> !Stale(Run(st, events[..i]), events[i])
    ensures StaleAsks(st, events) == {}
    decreases |events|
  {
    hide Step;
    if events != [] {
      assert events[..0] == [];
      forall i | 0 <= i < |events[1..]| ensures !Stale(Run(Step(st, events[0]), events[1..][..i]), events[1..][i]) {
        assert events[..i + 1][1..] == events[1..][..i];
        assert !Stale(Run(st, events[..i + 1]), events[i + 1]);
      }
      NothingStale(Step(st, events[0]), events[1..]);
    }
  }

  /**
   In a run whose refreshes all go through current closures, a figure from the ledger is that of the
   workspace active now, whichever switches lie between and whatever order answers came in.
   */
  lemma ShownIsTheActiveWorkspaces(host: string, events: seq<Event>) returns (k: nat)
    requires forall i :: 0 <= i < |events| ==> !Stale(Run(Initial(host), events[..i]), events[i])
    requires Run(Initial(host), events).balance.Some?
    ensures var st := Run(Initial(host), events);
      && k < |st.log| && StandsSince(st.log, k)
      && match st.log[k]
         case Put(n) => st.balance == Some(n + Drift(st.log[k + 1..]))
         case Answered(reply, answer) =>
           && st.active == Some(reply.id)
           && Amount(answer).Some? && st.balance == Some(Amount(answer).value + Drift(st.log[k + 1..]))
         case _ => false
  {
    var j;
    NothingStale(Initial(host), events);
    k, j := BalanceIsTheLastFigure(host, events);
  }

  const TWO_STUDIOS: seq<Workspace> := [Workspace("a", "PERSONAL"), Workspace("b", "PERSONAL")]

  /** The condition is needed: a refresh through an old closure shows another workspace's credits. */
  lemma StaleClosureShowsAnother()
    ensures var st := Run(Initial("localhost"),
        [Boot(TWO_STUDIOS, None), Switch(Render(TWO_STUDIOS, "a"), "b", None), Refresh("a"),
         Deliver(Pending(6, "a"), Summary(Some(7), false, false, 0))]);
      st.active == Some("b") && st.balance == Some(7)
  {
    var s0 := Initial("localhost");
    var e1, e2, e3, e4 := Boot(TWO_STUDIOS, None), Switch(Render(TWO_STUDIOS, "a"), "b", None), Refresh("a"),
      Deliver(Pending(6, "a"), Summary(Some(7), false, false, 0));
    assert IsLocalHost("localhost");
    assert Here("localhost", TWO_STUDIOS) == TWO_STUDIOS by { assert TWO_STUDIOS[1..][1..] == []; }
    assert Find(TWO_STUDIOS, "b") == Some(TWO_STUDIOS[1]) && Find(TWO_STUDIOS, "a") == Some(TWO_STUDIOS[0]);
    assert !Refused("localhost", Render(TWO_STUDIOS, "a"), "b", None);
    RunFour(s0, e1, e2, e3, e4);
    hide IsLocalHost, Here, Find, Refused, Run;
    var s1 := Step(s0, e1);
    assert s1.active == Some("a") && s1.counter == 2 && s1.members == Some(TWO_STUDIOS);
    var s2 := Step(s1, e2);
    assert s2.active == Some("b") && s2.counter == 5;
    var s3 := Step(s2, e3);
    assert Pending(6, "a") in s3.pending && s3.counter == 6;
    var s4 := Step(s3, e4);
  }

  lemma RunFour(st: State, e1: Event, e2: Event, e3: Event, e4: Event)
    ensures Run(st, [e1, e2, e3, e4]) == Step(Step(Step(Step(st, e1), e2), e3), e4)
  {
    hide Step;
    var four, three, two, one := [e1, e2, e3, e4], [e2, e3, e4], [e3, e4], [e4];
    assert four[1..] == three && three[1..] == two && two[1..] == one && one[1..] == [];
    assert Run(st, four) == Run(Step(st, e1), three);
    assert Run(Step(st, e1), three) == Run(Step(Step(st, e1), e2), two);
    assert Run(Step(Step(st, e1), e2), two) == Run(Step(Step(Step(st, e1), e2), e3), one);
  }

  // ---------------------------------------------------------------- nobody is stranded

  /** The type of each workspace, the same wherever it is mentioned. */
  type Types = string -> string

  ghost predicate Typed(ws: seq<Workspace>, types: Types) {
    forall w :: w in ws ==> w.kind == types(w.id) && w.kind != ""
  }

  /** A membership list as the server tells it gives true types. */
  ghost predicate Honest(ev: Event, types: Types) {
    (ev.Boot? || ev.ReadMembers?) ==> Typed(ev.workspaces, types)
  }

  /** The active workspace is a member's and belongs on this host, or the page was sent where one is. */
  predicate Placed(st: State) {
    st.members.Some? && st.sent.None? ==>
      && st.active.Some?
      && var w := Find(st.members.value, st.active.value);
         w.Some? && BelongsHere(st.host, w.value.kind)
  }

  /** Nothing is sent before the members are known, and their types are true. */
  ghost predicate Ready(st: State, types: Types) {
    if st.members.Some? then Typed(st.members.value, types) else st.sent.None?
  }

  /** What a switch goes wrong on: an unrefused member's workspace that lives on the other host. */
  predicate Misplaces(st: State, ev: Event) {
    && ev.Switch? && Enabled(st, ev) && st.sent.None?
    && ev.id != ev.seen.active && !Refused(st.host, ev.seen, ev.id, ev.kind)
    && var w := Find(st.members.value, ev.id);
       w.Some? && !BelongsHere(st.host, w.value.kind)
  }

  /** A new active workspace ends up placed exactly when it belongs here or is no member. */
  lemma LandPlaces(st: State, id: string, types: Types)
    requires st.members.Some? && Typed(st.members.value, types) && st.sent.None?
    ensures var w := Find(st.members.value, id);
      Placed(Land(st, id)) <==> w.None? || BelongsHere(st.host, w.value.kind)
    ensures Land(st, id).members == st.members && Land(st, id).host == st.host
  {
    var here := Here(st.host, st.members.value);
    if here != [] {
      assert here[0] in here;
      var w := Find(st.members.value, here[0].id);
      assert w.Some? && w.value.kind == types(here[0].id) == here[0].kind;
    }
  }

  lemma LandStaysSent(st: State, id: string)
    requires st.members.Some? && st.sent.Some?
    ensures Land(st, id).sent.Some? && Land(st, id).members == st.members
  {
  }

  lemma RepairPlaces(st: State, types: Types)
    requires st.members.Some? && Typed(st.members.value, types)
    requires st.sent.None? ==> st.active.Some? && BelongsHere(st.host, types(st.active.value))
    ensures Ready(Repair(st), types) && Placed(Repair(st))
  {
    var here := Here(st.host, st.members.value);
    if here != [] {
      assert here[0] in here;
      var w := Find(st.members.value, here[0].id);
      assert w.Some? && w.value.kind == types(here[0].id) == here[0].kind;
    }
  }

  lemma BootPlaces(st: State, ws: seq<Workspace>, preferred: Option<string>, types: Types)
    requires Ready(st, types) && st.members.None? && Typed(ws, types)
    ensures var t := Step(st, Boot(ws, preferred)); Ready(t, types) && Placed(t)
  {
    var t := st.(members := Some(ws));
    var first := Pick(Here(st.host, ws), preferred);
    if first.Some? {
      assert first.value in ws && BelongsHere(st.host, first.value.kind);
      LandPlaces(t, first.value.id, types);
    }
  }

  /**
   A switch keeps the page placed exactly when its render already showed the workspace, or it was
   refused, or the workspace is no member, or it belongs here.
   */
  lemma SwitchPlacesExactly(st: State, seen: Render, id: string, kind: Option<string>, types: Types)
    requires Ready(st, types) && Placed(st) && st.members.Some? && st.sent.None?
    ensures var found := Find(st.members.value, id); var t := Step(st, Switch(seen, id, kind));
      && Ready(t, types)
      && (Placed(t) <==>
          || id == seen.active || Refused(st.host, seen, id, kind)
          || found.None? || BelongsHere(st.host, found.value.kind))
  {
    hide Land, Find, Refused, BelongsHere;
    LandPlaces(Forget(st), id, types);
  }

  lemma StepPlaces(st: State, ev: Event, types: Types)
    requires Ready(st, types) && Placed(st) && Honest(ev, types)
    ensures Ready(Step(st, ev), types) && (Placed(Step(st, ev)) <==> !Misplaces(st, ev))
  {
    if Enabled(st, ev) {
      match ev
      case Boot(ws, preferred) => BootPlaces(st, ws, preferred, types);
      case ReadMembers(ws) => RepairPlaces(st.(members := Some(ws)), types);
      case Switch(seen, id, kind) =>
        hide Land;
        if st.sent.None? { SwitchPlacesExactly(st, seen, id, kind, types); } else { LandStaysSent(Forget(st), id); }
      case _ =>
    }
  }

  lemma {:induction false} RunOneMore(st: State, events: seq<Event>, i: nat)
    requires i < |events|
    ensures Run(st, events[..i + 1]) == Step(Run(st, events[..i]), events[i])
    decreases i
  {
    hide Step;
    if i == 0 {
      assert events[..1][1..] == [] && events[..0] == [];
    } else {
      assert events[..i + 1][1..] == events[1..][..i] && events[..i][1..] == events[1..][..i - 1];
      RunOneMore(Step(st, events[0]), events[1..], i - 1);
    }
  }

  lemma {:induction false} RunPlaces(host: string, events: seq<Event>, types: Types, n: nat)
    requires n <= |events| && forall ev :: ev in events ==> Honest(ev, types)
    requires forall i :: 0 <= i < n ==> !Misplaces(Run(Initial(host), events[..i]), events[i])
    ensures Ready(Run(Initial(host), events[..n]), types) && Placed(Run(Initial(host), events[..n]))
  {
    hide Misplaces, Honest, Step;
    if n == 0 {
      assert events[..0] == [];
    } else {
      RunPlaces(host, events, types, n - 1);
      RunOneMore(Initial(host), events, n - 1);
      StepPlaces(Run(Initial(host), events[..n - 1]), events[n - 1], types);
    }
  }

  /** The page is placed all through a run exactly when no switch on the way misplaces it. */
  lemma PlacedThroughoutExactly(host: string, events: seq<Event>, types: Types)
    requires forall ev :: ev in events ==> Honest(ev, types)
    ensures (forall n :: 0 <= n <= |events| ==> Placed(Run(Initial(host), events[..n])))
       <==> (forall i :: 0 <= i < |events| ==> !Misplaces(Run(Initial(host), events[..i]), events[i]))
  {
    if forall i :: 0 <= i < |events| ==> !Misplaces(Run(Initial(host), events[..i]), events[i]) {
      forall n | 0 <= n <= |events| ensures Placed(Run(Initial(host), events[..n])) {
        RunPlaces(host, events, types, n);
      }
    } else {
      var n := FirstMisplaced(host, events);
      RunPlaces(host, events, types, n);
      RunOneMore(Initial(host), events, n);
      StepPlaces(Run(Initial(host), events[..n]), events[n], types);
    }
  }

  lemma FirstMisplaced(host: string, events: seq<Event>) returns (n: nat)
    requires exists i :: 0 <= i < |events| && Misplaces(Run(Initial(host), events[..i]), events[i])
    ensures n < |events| && Misplaces(Run(Initial(host), events[..n]), events[n])
    ensures forall i :: 0 <= i < n ==> !Misplaces(Run(Initial(host), events[..i]), events[i])
  {
    hide Misplaces, Run;
    n := 0;
    while !Misplaces(Run(Initial(host), events[..n]), events[n])
      invariant n < |events|
      invariant forall i :: 0 <= i < n ==> !Misplaces(Run(Initial(host), events[..i]), events[i])
      decreases |events| - n
    {
      n := n + 1;
    }
  }

  /** The switch knows the workspace's true type, from its caller or its render, or the workspace is no member. */
  ghost predicate Informed(st: State, ev: Event, types: Types) {
    ev.Switch? ==>
      && Typed(ev.seen.workspaces, types)
      && (ev.kind.Some? ==> ev.kind.value == types(ev.id) && ev.kind.value != "")
      && (|| ev.kind.Some? || Find(ev.seen.workspaces, ev.id).Some?
          || (st.members.Some? ==> Find(st.members.value, ev.id).None?))
  }

  lemma InformedDoesNotMisplace(st: State, ev: Event, types: Types)
    requires Ready(st, types) && Informed(st, ev, types)
    ensures !Misplaces(st, ev)
  {
  }

  /** In every settled state the active workspace is a member and belongs here, or the page was sent on. */
  lemma NobodyIsStranded(host: string, events: seq<Event>, types: Types)
    requires forall ev :: ev in events ==> Honest(ev, types)
    requires forall i :: 0 <= i < |events| ==> Informed(Run(Initial(host), events[..i]), events[i], types)
    ensures Placed(Run(Initial(host), events))
  {
    assert events[..|events|] == events;
    InformedRun(host, events, types, |events|);
    RunPlaces(host, events, types, |events|);
  }

  lemma {:induction false} InformedRun(host: string, events: seq<Event>, types: Types, n: nat)
    requires n <= |events| && forall ev :: ev in events ==> Honest(ev, types)
    requires forall i :: 0 <= i < n ==> Informed(Run(Initial(host), events[..i]), events[i], types)
    ensures forall i :: 0 <= i < n ==> !Misplaces(Run(Initial(host), events[..i]), events[i])
  {
    hide Misplaces, Informed, Honest, Run;
    if n > 0 {
      InformedRun(host, events, types, n - 1);
      RunPlaces(host, events, types, n - 1);
      InformedDoesNotMisplace(Run(Initial(host), events[..n - 1]), events[n - 1], types);
    }
  }

  const ONE_OF_EACH: seq<Workspace> := [Workspace("a", "PERSONAL"), Workspace("o", "ORGANIZATION")]

  lemma AppPortalShows()
    ensures !BelongsHere("app.x", "ORGANIZATION") && BelongsHere("app.x", "PERSONAL")
    ensures Find(ONE_OF_EACH, "o") == Some(ONE_OF_EACH[1]) && Find(ONE_OF_EACH, "a") == Some(ONE_OF_EACH[0])
    ensures Find([ONE_OF_EACH[0]], "o") == None
    ensures Here("app.x", ONE_OF_EACH) == Here("app.x", [ONE_OF_EACH[0]]) == [ONE_OF_EACH[0]]
  {
    assert "app.x"[0] == 'a';
    assert !IsLocalHost("app.x") && PortalOf("app.x") == AppPortal;
  }

  /** A type its caller made up leads a switch to a workspace of the other host. */
  lemma MadeUpTypeStrands()
    ensures var st := Run(Initial("app.x"),
        [Boot(ONE_OF_EACH, None), Switch(Render(ONE_OF_EACH, "a"), "o", Some("PERSONAL"))]);
      !Placed(st)
  {
    var s0, e1 := Initial("app.x"), Boot(ONE_OF_EACH, None);
    var e2 := Switch(Render(ONE_OF_EACH, "a"), "o", Some("PERSONAL"));
    AppPortalShows();
    hide BelongsHere, Find, Here;
    var s1 := Step(s0, e1);
    assert s1.members == Some(ONE_OF_EACH) && s1.active == Some("a") && s1.sent.None? && s1.host == "app.x";
    assert Run(s0, [e1, e2]) == Step(s1, e2) by {
      assert [e1, e2][1..] == [e2] && [e2][1..] == [];
      assert Run(s0, [e1, e2]) == Run(s1, [e2]) == Run(Step(s1, e2), []);
    }
  }

  /** So does a switch without a type, through a render from before the workspace was joined, with every type true. */
  lemma OldListStrands()
    ensures var st := Run(Initial("app.x"),
        [Boot([ONE_OF_EACH[0]], None), ReadMembers(ONE_OF_EACH), Switch(Render([ONE_OF_EACH[0]], "a"), "o", None)]);
      !Placed(st)
  {
    var s0, e1, e2 := Initial("app.x"), Boot([ONE_OF_EACH[0]], None), ReadMembers(ONE_OF_EACH);
    var e3 := Switch(Render([ONE_OF_EACH[0]], "a"), "o", None);
    AppPortalShows();
    assert Find([ONE_OF_EACH[0]], "a").Some?;
    hide BelongsHere, Find, Here;
    var s1 := Step(s0, e1);
    assert s1.active == Some("a") && s1.sent.None? && s1.host == "app.x";
    var s2 := Step(s1, e2);
    assert s2 == s1.(members := Some(ONE_OF_EACH));
    assert Run(s0, [e1, e2, e3]) == Step(s2, e3) by {
      assert [e1, e2, e3][1..] == [e2, e3] && [e2, e3][1..] == [e3] && [e3][1..] == [];
      assert Run(s0, [e1, e2, e3]) == Run(s1, [e2, e3]) == Run(s2, [e3]) == Run(Step(s2, e3), []);
    }
  }

  // ---------------------------------------------------------------- the provider itself

  class AppProvider {
    const host: string
    var members: Option<seq<Workspace>>
    var active: Option<string>
    var balanceReq: nat
    var pending: set<Pending>
    var balance: Option<int>
    var line: Line
    var sent: Option<Departure>
    var handOff: Option<string>
    ghost var log: seq<Entry>

    ghost function View(): State
      reads this
    {
      State(host, members, active, balanceReq, pending, balance, line, sent, handOff, log)
    }

    constructor (host: string)
      ensures View() == Initial(host) && Inv(View())
    {
      this.host := host;
      members, active, sent, handOff := None, None, None, None;
      balanceReq, pending, balance, line, log := 0, {}, None, NO_LINE, [];
    }

    method ForgetBalance()
      modifies this`balanceReq, this`balance, this`line, this`log
      ensures View() == Forget(old(View()))
    {
      balanceReq := balanceReq + 1;
      balance := None;
      line := NO_LINE;
      log := log + [Reset];
    }

    method SetWorkspace(id: string)
      modifies this`active, this`balanceReq, this`log
      ensures View() == Commit(old(View()), id)
    {
      active := Some(id);
      balanceReq := balanceReq + 1;
      log := log + [Moved(id)];
    }

    /** Asks the ledger through a closure of workspace `id`. */
    method RefreshBalance(id: string)
      modifies this`balanceReq, this`pending, this`log
      ensures View() == Issue(old(View()), id)
    {
      balanceReq := balanceReq + 1;
      var request := Pending(balanceReq, id);
      pending := pending + {request};
      log := log + [Issued(request)];
    }

    method GoElsewhere(preferred: Option<string>)
      requires members.Some?
      modifies this`sent
      ensures View() == Leave(old(View()), preferred)
    {
      var elsewhere := Pick(members.value, preferred);
      if elsewhere.Some? { sent := Some(HandOff(elsewhere.value.id)); } else { sent := Some(Welcome); }
    }

    /** The commit of a new workspace and the effects it sets off. */
    method LandOn(id: string)
      requires members.Some?
      modifies this
      ensures View() == Land(old(View()), id)
    {
      SetWorkspace(id);
      if Find(members.value, id).Some? {
        RefreshBalance(id);
        return;
      }
      var here := Here(host, members.value);
      ForgetBalance();
      if here == [] { GoElsewhere(None); }
      RefreshBalance(id);
      if here != [] {
        SetWorkspace(here[0].id);
        RefreshBalance(here[0].id);
      }
    }

    method Start(workspaces: seq<Workspace>, preferred: Option<string>)
      requires Inv(View()) && members.None?
      modifies this
      ensures Inv(View()) && View() == Step(old(View()), Boot(workspaces, preferred))
    {
      hide Inv, Land, Here;
      StepKeeps(View(), Boot(workspaces, preferred));
      members := Some(workspaces);
      var first := Pick(Here(host, workspaces), preferred);
      if first.Some? { LandOn(first.value.id); } else { GoElsewhere(preferred); }
    }

    method RefreshMe(workspaces: seq<Workspace>)
      requires Inv(View()) && members.Some?
      modifies this
      ensures Inv(View()) && View() == Step(old(View()), ReadMembers(workspaces))
    {
      hide Inv, Here;
      StepKeeps(View(), ReadMembers(workspaces));
      members := Some(workspaces);
      if active.None? || Find(workspaces, active.value).Some? { return; }
      var here := Here(host, workspaces);
      ForgetBalance();
      if here != [] {
        SetWorkspace(here[0].id);
        RefreshBalance(here[0].id);
      } else {
        GoElsewhere(None);
      }
    }

    /** Called on the value of render `seen`. */
    method SwitchWorkspace(seen: Render, id: string, kind: Option<string>)
      requires Inv(View()) && Enabled(View(), Switch(seen, id, kind))
      modifies this
      ensures Inv(View()) && View() == Step(old(View()), Switch(seen, id, kind))
    {
      hide Inv, Land;
      StepKeeps(View(), Switch(seen, id, kind));
      if id == seen.active { return; }
      var known := kind;
      if known.None? {
        var listed := Find(seen.workspaces, id);
        if listed.Some? { known := Some(listed.value.kind); }
      }
      if known.Some? && known.value != "" && !BelongsHere(host, known.value) {
        handOff := Some(id);
        return;
      }
      ForgetBalance();
      if active != Some(id) { LandOn(id); }
    }

    /** An answer, or a failure, for one of the requests on their way. */
    method Receives(reply: Pending, answer: Answer)
      requires Inv(View()) && reply in pending
      modifies this
      ensures Inv(View()) && View() == Step(old(View()), Deliver(reply, answer))
    {
      hide Inv;
      StepKeeps(View(), Deliver(reply, answer));
      pending := pending - {reply};
      log := log + [Answered(reply, answer)];
      if !answer.Failure? && reply.ticket == balanceReq {
        line := LineOf(answer);
        balance := Amount(answer);
      }
    }

    method Spends(credits: int)
      requires Inv(View()) && members.Some?
      modifies this
      ensures Inv(View()) && View() == Step(old(View()), Spend(credits))
    {
      hide Inv;
      StepKeeps(View(), Spend(credits));
      if balance.Some? { balance := Some(balance.value - credits); }
      log := log + [Spent(credits)];
    }

    method Refunds(credits: int)
      requires Inv(View()) && members.Some?
      modifies this
      ensures Inv(View()) && View() == Step(old(View()), Refund(credits))
    {
      hide Inv;
      StepKeeps(View(), Refund(credits));
      if balance.Some? { balance := Some(balance.value + credits); }
      log := log + [Refunded(credits)];
    }

    method PutBalance(figure: int)
      requires Inv(View()) && members.Some?
      modifies this
      ensures Inv(View()) && View() == Step(old(View()), SetBalance(figure))
    {
      hide Inv;
      StepKeeps(View(), SetBalance(figure));
      balance := Some(figure);
      log := log + [Put(figure)];
    }
  }
}
