/** Start, accept, shutdown and restart of the DNSCrypt server over TCP, in every interleaving. */
module ServerLifecycle {
  import opened Runs

  /** The accept loop of one run: polling, holding a just accepted connection, left, or gone. */
  datatype Loop = Polling | Holding(conn: nat) | Leaving | Gone

  /** One run of the server: its loop, and whether its `done` channel is closed. */
  datatype Generation = Generation(loop: Loop, doneClosed: bool)

  /** The life of an accepted connection. A handler closes it, removes it, then exits. */
  datatype ConnPhase = Accepted | Refused | Handling | Released | Removed | Exited

  datatype Conn = Conn(gen: nat, closed: bool, phase: ConnPhase)

  /** A call of `Shutdown` after its lock section: the run whose `done` it waits for. */
  datatype Waiter = Waiter(gen: nat, returnedNil: bool)

  datatype Server = Server(
    started: bool,
    gens: seq<Generation>,
    tcpConns: set<nat>,
    conns: seq<Conn>,
    waiters: map<nat, Waiter>)

  const INITIAL := Server(false, [], {}, [], map[])

  datatype Event =
    | Start(ctxErr: bool, bindOk: bool)
    | CheckStarted(gen: nat)
    | AcceptConn(gen: nat)
    | AcceptFail(gen: nat, timeout: bool)
    | Adopt(gen: nat)
    | HandlerClose(conn: nat)
    | HandlerRemove(conn: nat)
    | HandlerExit(conn: nat)
    | LoopDone(gen: nat)
    | ShutdownBegin(waiter: nat)
    | ShutdownReturn(waiter: nat)

  predicate CanStart(s: Server) {
    !s.started && (s.gens == [] || s.gens[|s.gens| - 1].doneClosed)
  }

  function SetLoop(s: Server, g: nat, l: Loop): seq<Generation>
    requires g < |s.gens|
  {
    s.gens[g := s.gens[g].(loop := l)]
  }

  function SetConn(s: Server, c: nat, closed: bool, ph: ConnPhase): seq<Conn>
    requires c < |s.conns|
  {
    s.conns[c := s.conns[c].(closed := closed, phase := ph)]
  }

  /** Closing every tracked connection. */
  function CloseTracked(conns: seq<Conn>, tracked: set<nat>): (r: seq<Conn>)
    ensures |r| == |conns|
    ensures forall i :: 0 <= i < |conns| ==> r[i] == if i in tracked then conns[i].(closed := true) else conns[i]
  {
    seq(|conns|, i requires 0 <= i < |conns| => if i in tracked then conns[i].(closed := true) else conns[i])
  }

  /** Every admitted handler of run `g` has exited: the wait group's count is zero. */
  predicate HandlersExited(s: Server, g: nat) {
    forall c :: 0 <= c < |s.conns| && s.conns[c].gen == g ==> s.conns[c].phase.Exited? || s.conns[c].phase.Refused?
  }

  function StartStep(s: Server): Server {
    s.(started := true, gens := s.gens + [Generation(Polling, false)])
  }

  function AdoptStep(s: Server, g: nat, c: nat): Server
    requires g < |s.gens| && c < |s.conns|
  {
    if !s.started then s.(conns := SetConn(s, c, true, Refused), gens := SetLoop(s, g, Leaving))
    else
      s.(conns := SetConn(s, c, s.conns[c].closed, Handling),
         tcpConns := s.tcpConns + {c},
         gens := SetLoop(s, g, Polling))
  }

  function ShutdownStep(s: Server): Server {
    if s.started then s.(started := false, conns := CloseTracked(s.conns, s.tcpConns)) else s
  }

  /** A step that is not enabled changes nothing. */
  function Step(s: Server, e: Event): Server {
    match e
    case Start(ctxErr, bindOk) => if ctxErr || !CanStart(s) || !bindOk then s else StartStep(s)
    case CheckStarted(g) =>
      if g < |s.gens| && s.gens[g].loop.Polling? && !s.started
      then s.(gens := SetLoop(s, g, Leaving)) else s
    case AcceptConn(g) =>
      if g < |s.gens| && s.gens[g].loop.Polling?
      then s.(conns := s.conns + [Conn(g, false, Accepted)], gens := SetLoop(s, g, Holding(|s.conns|)))
      else s
    case AcceptFail(g, timeout) =>
      if g < |s.gens| && s.gens[g].loop.Polling? && (!s.started || !timeout)
      then s.(gens := SetLoop(s, g, Leaving)) else s
    case Adopt(g) =>
      if g < |s.gens| && s.gens[g].loop.Holding? && s.gens[g].loop.conn < |s.conns|
      then AdoptStep(s, g, s.gens[g].loop.conn) else s
    case HandlerClose(c) =>
      if c < |s.conns| && s.conns[c].phase.Handling? then s.(conns := SetConn(s, c, true, Released)) else s
    case HandlerRemove(c) =>
      if c < |s.conns| && s.conns[c].phase.Released?
      then s.(conns := SetConn(s, c, s.conns[c].closed, Removed), tcpConns := s.tcpConns - {c}) else s
    case HandlerExit(c) =>
      if c < |s.conns| && s.conns[c].phase.Removed? then s.(conns := SetConn(s, c, s.conns[c].closed, Exited)) else s
    case LoopDone(g) =>
      if g < |s.gens| && s.gens[g].loop.Leaving? && HandlersExited(s, g)
      then s.(gens := s.gens[g := Generation(Gone, true)]) else s
    case ShutdownBegin(w) =>
      if s.gens == [] || w in s.waiters then s
      else var s' := ShutdownStep(s); s'.(waiters := s.waiters[w := Waiter(|s.gens| - 1, false)])
    case ShutdownReturn(w) =>
      if w in s.waiters && s.waiters[w].gen < |s.gens| && s.gens[s.waiters[w].gen].doneClosed
      then s.(waiters := s.waiters[w := s.waiters[w].(returnedNil := true)]) else s
  }

  /** The object under its lock. */
  class DnsCryptServer {
    var started: bool
    var gens: seq<Generation>
    var tcpConns: set<nat>
    var conns: seq<Conn>
    ghost var waiters: map<nat, Waiter>

    ghost function View(): Server
      reads this
    {
      Server(started, gens, tcpConns, conns, waiters)
    }

    constructor ()
      ensures View() == INITIAL
    {
      started, gens, tcpConns, conns, waiters := false, [], {}, [], map[];
    }

    method DoStart(ctxErr: bool, bindOk: bool) returns (ok: bool)
      modifies this
      ensures View() == Step(old(View()), Start(ctxErr, bindOk))
      ensures ok <==> !ctxErr && bindOk && CanStart(old(View()))
    {
      if ctxErr { return false; }
      if started { return false; }
      if |gens| > 0 && !gens[|gens| - 1].doneClosed { return false; }
      if !bindOk { return false; }
      started := true;
      gens := gens + [Generation(Polling, false)];
      ok := true;
    }

    /** The lock section of `serveTCPLoop`: adopt only while this run is accepting. */
    method DoAdopt(g: nat, conn: nat) returns (stopped: bool)
      requires g < |gens| && conn < |conns|
      modifies this
      ensures View() == AdoptStep(old(View()), g, conn) && stopped == !old(started)
    {
      if !started {
        conns := conns[conn := conns[conn].(closed := true, phase := Refused)];
        gens := gens[g := gens[g].(loop := Leaving)];
        return true;
      }
      tcpConns := tcpConns + {conn};
      conns := conns[conn := conns[conn].(phase := Handling)];
      gens := gens[g := gens[g].(loop := Polling)];
      stopped := false;
    }

    /** The lock section of `Shutdown`; the loop closes every tracked connection. */
    method DoShutdown(ghost w: nat) returns (ok: bool)
      requires w !in waiters && forall c :: c in tcpConns ==> c < |conns|
      modifies this
      ensures View() == Step(old(View()), ShutdownBegin(w)) && ok == (old(gens) != [])
    {
      if |gens| == 0 { return false; }
      if started {
        started := false;
        var rest := tcpConns;
        while rest != {}
          invariant rest <= tcpConns == old(tcpConns) && |conns| == |old(conns)|
          invariant conns == CloseTracked(old(conns), tcpConns - rest)
          invariant View() == old(View()).(started := false, conns := conns)
          decreases rest
        {
          var c :| c in rest;
          rest := rest - {c};
          conns := conns[c := conns[c].(closed := true)];
        }
        assert tcpConns - {} == tcpConns;
      }
      waiters := waiters[w := Waiter(|gens| - 1, false)];
      ok := true;
    }

    /** The end of a connection handler: close, then remove under the lock, then leave. */
    method DoRelease(conn: nat)
      requires conn < |conns| && conns[conn].phase.Handling?
      modifies this
      ensures View() == Step(Step(Step(old(View()), HandlerClose(conn)), HandlerRemove(conn)), HandlerExit(conn))
    {
      conns := conns[conn := conns[conn].(closed := true, phase := Released)];
      tcpConns := tcpConns - {conn};
      conns := conns[conn := conns[conn].(phase := Removed)];
      conns := conns[conn := conns[conn].(phase := Exited)];
    }
  }

  // What every step keeps.

  ghost predicate GenOk(s: Server, g: nat)
    requires g < |s.gens|
  {
    var l := s.gens[g].loop;
    && (l.Gone? <==> s.gens[g].doneClosed)
    && (g < |s.gens| - 1 ==> l.Gone?)
    && (l.Holding? ==> l.conn < |s.conns| && s.conns[l.conn] == Conn(g, false, Accepted))
  }

  ghost predicate ConnOk(s: Server, c: nat)
    requires c < |s.conns|
  {
    var cn := s.conns[c];
    && cn.gen < |s.gens|
    && (c in s.tcpConns <==> cn.phase.Handling? || cn.phase.Released?)
    && (cn.phase.Accepted? ==> s.gens[cn.gen].loop == Holding(c))
    && (cn.phase.Handling? && !s.started ==> cn.closed)
    && (!cn.phase.Accepted? && !cn.phase.Handling? ==> cn.closed)
    && (s.gens[cn.gen].loop.Gone? ==> cn.phase.Exited? || cn.phase.Refused?)
  }

  ghost predicate WaiterOk(s: Server, w: nat)
    requires w in s.waiters
  {
    var wt := s.waiters[w];
    && wt.gen < |s.gens|
    && (wt.gen == |s.gens| - 1 ==> !s.started)
    && (wt.returnedNil ==> s.gens[wt.gen].doneClosed)
  }

  ghost predicate Inv(s: Server) {
    && (s.started ==> s.gens != [])
    && (forall g :: 0 <= g < |s.gens| ==> GenOk(s, g))
    && (forall c :: 0 <= c < |s.conns| ==> ConnOk(s, c))
    && (forall c :: c in s.tcpConns ==> c < |s.conns|)
    && (forall w :: w in s.waiters ==> WaiterOk(s, w))
  }

  lemma ConnsKeepInv(s: Server, e: Event, c: nat)
    requires Inv(s) && c < |Step(s, e).conns|
    ensures ConnOk(Step(s, e), c)
  {
    if c < |s.conns| {
      assert ConnOk(s, c) && GenOk(s, s.conns[c].gen);
    } else {
      assert c !in s.tcpConns;
    }
    if e.Adopt? && e.gen < |s.gens| { assert GenOk(s, e.gen); }
  }

  lemma GensKeepInv(s: Server, e: Event, g: nat)
    requires Inv(s) && g < |Step(s, e).gens|
    ensures GenOk(Step(s, e), g)
  {
    if g < |s.gens| {
      assert GenOk(s, g);
      if s.gens[g].loop.Holding? { assert ConnOk(s, s.gens[g].loop.conn); }
    }
    if e.Start? && |s.gens| > 0 { assert GenOk(s, |s.gens| - 1); }
    if e.Adopt? && e.gen < |s.gens| { assert GenOk(s, e.gen); }
  }

  lemma WaitersKeepInv(s: Server, e: Event, w: nat)
    requires Inv(s) && w in Step(s, e).waiters
    ensures WaiterOk(Step(s, e), w)
  {
    if w in s.waiters { assert WaiterOk(s, w); }
  }

  /** What every step keeps. */
  lemma StepKeepsInv(s: Server, e: Event)
    requires Inv(s)
    ensures Inv(Step(s, e))
  {
    var s' := Step(s, e);
    forall c | 0 <= c < |s'.conns| ensures ConnOk(s', c) { ConnsKeepInv(s, e, c); }
    forall g | 0 <= g < |s'.gens| ensures GenOk(s', g) { GensKeepInv(s, e, g); }
    forall w | w in s'.waiters ensures WaiterOk(s', w) { WaitersKeepInv(s, e, w); }
  }

  /** The state reached by any sequence of events. */
  function Run(events: seq<Event>): Server {
    Fold(Step, INITIAL, events)
  }

  lemma {:induction false} RunKeepsInv(events: seq<Event>)
    ensures Inv(Run(events))
  {
    if events == [] {
    } else {
      RunKeepsInv(events[..|events| - 1]);
      StepKeepsInv(Run(events[..|events| - 1]), events[|events| - 1]);
    }
  }

  /** Run `g` is still serving: its loop or one of its handlers has not ended. */
  predicate Serving(s: Server, g: nat)
    requires g < |s.gens|
  {
    !s.gens[g].doneClosed
  }

  /** Everything run `g` took on is over: its loop has gone, each of its connections is closed,
      untracked and without a handler. */
  ghost predicate AllOver(s: Server, g: nat) {
    && g < |s.gens| && s.gens[g].loop.Gone?
    && forall c :: 0 <= c < |s.conns| && s.conns[c].gen == g ==>
         s.conns[c].closed && c !in s.tcpConns && (s.conns[c].phase.Exited? || s.conns[c].phase.Refused?)
  }

  lemma DoneMeansOver(s: Server, g: nat)
    requires Inv(s) && g < |s.gens| && s.gens[g].doneClosed
    ensures AllOver(s, g)
  {
    assert GenOk(s, g);
    forall c | 0 <= c < |s.conns| && s.conns[c].gen == g
      ensures s.conns[c].closed && c !in s.tcpConns && (s.conns[c].phase.Exited? || s.conns[c].phase.Refused?)
    {
      assert ConnOk(s, c);
    }
  }

  lemma InvSingle(s: Server, g: nat, h: nat)
    requires Inv(s) && g < |s.gens| && h < |s.gens| && Serving(s, g) && Serving(s, h)
    ensures g == h == |s.gens| - 1
  {
    assert GenOk(s, g) && GenOk(s, h);
  }

  /** At most one run serves at any time, and it is the latest. */
  lemma OneGenerationServes(events: seq<Event>, g: nat, h: nat)
    requires g < |Run(events).gens| && h < |Run(events).gens| && Serving(Run(events), g) && Serving(Run(events), h)
    ensures g == h == |Run(events).gens| - 1
  {
    RunKeepsInv(events);
    InvSingle(Run(events), g, h);
  }

  /** `Shutdown` returns nil only when everything its run took on is over. */
  lemma ShutdownIsComplete(events: seq<Event>, w: nat)
    requires w in Run(events).waiters && Run(events).waiters[w].returnedNil
    ensures AllOver(Run(events), Run(events).waiters[w].gen)
  {
    RunKeepsInv(events);
    assert WaiterOk(Run(events), w);
    DoneMeansOver(Run(events), Run(events).waiters[w].gen);
  }

  lemma InvStart(s: Server, ctxErr: bool, bindOk: bool)
    requires Inv(s) && |Step(s, Start(ctxErr, bindOk)).gens| > |s.gens|
    ensures s.tcpConns == {} && forall g :: 0 <= g < |s.gens| ==> AllOver(s, g)
  {
    forall g | 0 <= g < |s.gens| ensures AllOver(s, g) {
      assert GenOk(s, g);
      DoneMeansOver(s, g);
    }
    forall c | 0 <= c < |s.conns| ensures c !in s.tcpConns {
      assert ConnOk(s, c);
      assert AllOver(s, s.conns[c].gen);
    }
  }

  /** `Start` succeeds only when everything every earlier run took on is over. */
  lemma StartAfterOver(events: seq<Event>, ctxErr: bool, bindOk: bool)
    requires |Step(Run(events), Start(ctxErr, bindOk)).gens| > |Run(events).gens|
    ensures Run(events).tcpConns == {} && forall g :: 0 <= g < |Run(events).gens| ==> AllOver(Run(events), g)
  {
    RunKeepsInv(events);
    InvStart(Run(events), ctxErr, bindOk);
  }

  /** No step adopts a connection of run `g` in state `s`. */
  ghost predicate AdoptsNone(s: Server, g: nat) {
    forall e, c :: 0 <= c < |s.conns| && s.conns[c].gen == g && !s.conns[c].phase.Handling? ==>
                   c < |Step(s, e).conns| && !Step(s, e).conns[c].phase.Handling?
  }

  /** The connections of run `g` that are still handled are closed. */
  ghost predicate HandledAreClosed(s: Server, g: nat) {
    forall c :: 0 <= c < |s.conns| && s.conns[c].gen == g && s.conns[c].phase.Handling? ==> s.conns[c].closed
  }

  lemma InvNoAdoption(s: Server, w: nat)
    requires Inv(s) && w in s.waiters
    ensures AdoptsNone(s, s.waiters[w].gen) && HandledAreClosed(s, s.waiters[w].gen)
  {
    assert WaiterOk(s, w);
    var g := s.waiters[w].gen;
    assert GenOk(s, g);
    forall c | 0 <= c < |s.conns| && s.conns[c].gen == g ensures ConnOk(s, c) {}
    forall e, c | 0 <= c < |s.conns| && s.conns[c].gen == g && !s.conns[c].phase.Handling?
      ensures c < |Step(s, e).conns| && !Step(s, e).conns[c].phase.Handling?
    {
      if e.Adopt? && e.gen < |s.gens| { assert GenOk(s, e.gen); }
    }
  }

  /** Once a run's shutdown has begun, none of its connections is adopted any more, and those
      still handled are closed. */
  lemma NoAdoptionAfterShutdown(events: seq<Event>, w: nat)
    requires w in Run(events).waiters
    ensures var s := Run(events); AdoptsNone(s, s.waiters[w].gen) && HandledAreClosed(s, s.waiters[w].gen)
  {
    RunKeepsInv(events);
    InvNoAdoption(Run(events), w);
  }

  // A started server goes on accepting.

  lemma StillAcceptingStep(s: Server, e: Event)
    requires Inv(s) && Step(s, e).started && (e.AcceptFail? && !e.timeout ==> e.gen != |Step(s, e).gens| - 1)
    requires s.started ==> s.gens != [] && !Left(s.gens[|s.gens| - 1].loop)
    ensures var s' := Step(s, e); s'.gens != [] && !Left(s'.gens[|s'.gens| - 1].loop)
  {
  }

  predicate Left(l: Loop) { l.Leaving? || l.Gone? }

  /** Whatever happens, also timeouts of the listener, the loop of a started server goes on, unless the
      listener fails otherwise. */
  lemma {:induction false} StillAccepting(events: seq<Event>, g: nat)
    requires Run(events).started && |Run(events).gens| == g + 1 && AcceptFail(g, false) !in events
    ensures !Left(Run(events).gens[g].loop)
  {
    var front, e := events[..|events| - 1], events[|events| - 1];
    RunKeepsInv(front);
    if Run(front).started {
      assert |Run(front).gens| == g + 1;
      StillAccepting(front, g);
    }
    StillAcceptingStep(Run(front), e);
  }

  /** And the next connection it gets is served: tracked, open and with a handler, and the loop polls
      again. */
  lemma ConnectionServed(events: seq<Event>, g: nat)
    requires var s := Run(events); s.started && g == |s.gens| - 1 && s.gens[g].loop.Polling?
    ensures var s, s' := Run(events), Run(events + [AcceptConn(g), Adopt(g)]);
            var c := |s.conns|;
            && |s'.conns| == c + 1 && s'.conns[c] == Conn(g, false, Handling) && c in s'.tcpConns
            && s'.gens == s.gens
  {
    FoldTwo(Step, INITIAL, events, AcceptConn(g), Adopt(g));
    var s := Run(events);
    var s1 := Step(s, AcceptConn(g));
    assert s1.gens[g].loop == Holding(|s.conns|);
    assert Step(s1, Adopt(g)).gens == s.gens;
  }

  /** `Start` starts a run exactly if the context is live, the address can be bound, no run is started
      and the last one is over. */
  lemma StartsIff(s: Server, ctxErr: bool, bindOk: bool)
    ensures var s' := Step(s, Start(ctxErr, bindOk));
            if !ctxErr && bindOk && !s.started && (s.gens != [] ==> s.gens[|s.gens| - 1].doneClosed)
            then s' == s.(started := true, gens := s.gens + [Generation(Polling, false)])
            else s' == s
  {
  }

  /** So a server whose shutdown returned nil can be started again. */
  lemma RestartAfterShutdown(events: seq<Event>, w: nat)
    requires var s := Run(events); w in s.waiters && s.waiters[w].gen == |s.gens| - 1 && s.waiters[w].returnedNil
    ensures var s' := Run(events + [Start(false, true)]);
            s'.started && |s'.gens| == |Run(events).gens| + 1 && s'.gens[|s'.gens| - 1].loop.Polling?
  {
    RunKeepsInv(events);
    assert WaiterOk(Run(events), w);
    FoldSnoc(Step, INITIAL, events, Start(false, true));
    StartsIff(Run(events), false, true);
  }

  // A shutdown can always finish.

  /** The handlers of the first `n` connections end, one after the other. */
  function EndHandlers(n: nat): seq<Event> {
    if n == 0 then [] else EndHandlers(n - 1) + [HandlerClose(n - 1), HandlerRemove(n - 1), HandlerExit(n - 1)]
  }

  function EndOne(s: Server, c: nat): Server {
    Step(Step(Step(s, HandlerClose(c)), HandlerRemove(c)), HandlerExit(c))
  }

  function EndAll(s: Server, n: nat): Server {
    if n == 0 then s else EndOne(EndAll(s, n - 1), n - 1)
  }

  lemma {:induction false} EndAllRuns(s: Server, n: nat)
    ensures Fold(Step, s, EndHandlers(n)) == EndAll(s, n)
  {
    if n == 0 {
    } else {
      EndAllRuns(s, n - 1);
      FoldThree(Step, s, EndHandlers(n - 1), HandlerClose(n - 1), HandlerRemove(n - 1), HandlerExit(n - 1));
    }
  }

  /** Where a connection's handler ends up, whatever stage it had reached. */
  function Ended(ph: ConnPhase): ConnPhase {
    if ph.Accepted? || ph.Refused? then ph else Exited
  }

  /** `t` is `s` with the handlers of the first `n` connections ended and nothing else changed
      but their sockets and the tracking set. */
  ghost predicate EndedUpTo(s: Server, t: Server, n: nat) {
    && t.gens == s.gens && t.started == s.started && t.waiters == s.waiters && |t.conns| == |s.conns|
    && forall i :: 0 <= i < |s.conns| ==>
         && t.conns[i].gen == s.conns[i].gen
         && t.conns[i].phase == if i < n then Ended(s.conns[i].phase) else s.conns[i].phase
  }

  lemma HandlerEnds(t: Server, c: nat)
    requires c < |t.conns|
    ensures var u := EndOne(t, c);
            && u.gens == t.gens && u.started == t.started && u.waiters == t.waiters
            && u.conns == t.conns[c := u.conns[c]]
            && u.conns[c].gen == t.conns[c].gen && u.conns[c].phase == Ended(t.conns[c].phase)
  {
    var t1 := Step(t, HandlerClose(c));
    assert t1.conns == t.conns[c := t1.conns[c]];
    var t2 := Step(t1, HandlerRemove(c));
    assert t2.conns == t.conns[c := t2.conns[c]];
  }

  lemma EndedOneMore(s: Server, t: Server, u: Server, n: nat)
    requires n < |s.conns| && EndedUpTo(s, t, n)
    requires u.gens == t.gens && u.started == t.started && u.waiters == t.waiters
    requires |u.conns| > n && u.conns == t.conns[n := u.conns[n]]
    requires u.conns[n].gen == t.conns[n].gen && u.conns[n].phase == Ended(t.conns[n].phase)
    ensures EndedUpTo(s, u, n + 1)
  {
  }

  lemma {:induction false} HandlersEnd(s: Server, n: nat)
    requires n <= |s.conns|
    ensures EndedUpTo(s, EndAll(s, n), n)
  {
    if n == 0 {
    } else {
      var t := EndAll(s, n - 1);
      HandlersEnd(s, n - 1);
      HandlerEnds(t, n - 1);
      EndedOneMore(s, t, EndOne(t, n - 1), n - 1);
    }
  }

  /** The loop of a run that no longer accepts leaves, refusing a connection it may hold. */
  function LoopLeaves(s: Server, g: nat): Server {
    Step(Step(s, CheckStarted(g)), Adopt(g))
  }

  /** The loop of run `g` has left, and it holds no connection. */
  ghost predicate HasLeft(s: Server, g: nat) {
    && g < |s.gens| && s.gens[g].loop.Leaving?
    && forall c :: 0 <= c < |s.conns| && s.conns[c].gen == g ==> !s.conns[c].phase.Accepted?
  }

  lemma LoopHasLeft(s: Server, w: nat)
    requires Inv(s) && w in s.waiters && WaiterOk(s, w) && !s.gens[s.waiters[w].gen].doneClosed
    ensures HasLeft(LoopLeaves(s, s.waiters[w].gen), s.waiters[w].gen)
    ensures LoopLeaves(s, s.waiters[w].gen).waiters == s.waiters
  {
    var g := s.waiters[w].gen;
    assert GenOk(s, g);
    StepKeepsInv(s, CheckStarted(g));
    var t := Step(s, CheckStarted(g));
    assert GenOk(t, g);
    StepKeepsInv(t, Adopt(g));
    var s' := LoopLeaves(s, g);
    forall c | 0 <= c < |s'.conns| && s'.conns[c].gen == g ensures !s'.conns[c].phase.Accepted? {
      assert ConnOk(s', c);
    }
  }

  lemma LeftCanReturn(t: Server, u: Server, w: nat, g: nat)
    requires w in t.waiters && t.waiters[w].gen == g && HasLeft(t, g) && EndedUpTo(t, u, |t.conns|)
    ensures var s' := Step(Step(u, LoopDone(g)), ShutdownReturn(w));
            w in s'.waiters && s'.waiters[w] == Waiter(g, true)
  {
    assert HandlersExited(u, g);
  }

  lemma FinishScript(s: Server, w: nat) returns (more: seq<Event>)
    requires Inv(s) && w in s.waiters
    ensures var s' := Fold(Step, s, more); w in s'.waiters && s'.waiters[w] == Waiter(s.waiters[w].gen, true)
  {
    assert WaiterOk(s, w);
    var g := s.waiters[w].gen;
    if s.gens[g].doneClosed {
      more := [ShutdownReturn(w)];
      FoldOneOf(Step, s, ShutdownReturn(w));
    } else {
      LoopHasLeft(s, w);
      var t := LoopLeaves(s, g);
      var n := |t.conns|;
      HandlersEnd(t, n);
      LeftCanReturn(t, EndAll(t, n), w, g);
      var leave := [CheckStarted(g), Adopt(g)];
      more := leave + EndHandlers(n) + [LoopDone(g), ShutdownReturn(w)];
      FoldTwoOf(Step, s, CheckStarted(g), Adopt(g));
      FoldConcat(Step, s, leave, EndHandlers(n));
      EndAllRuns(t, n);
      FoldTwo(Step, s, leave + EndHandlers(n), LoopDone(g), ShutdownReturn(w));
    }
  }

  /** From every reachable state a begun shutdown can still be completed: once the loop has seen
      that the run is over and the handlers have ended, `done` closes and the caller gets nil. */
  lemma ShutdownCanFinish(events: seq<Event>, w: nat) returns (more: seq<Event>)
    requires w in Run(events).waiters
    ensures var s, s' := Run(events), Run(events + more);
            w in s'.waiters && s'.waiters[w] == Waiter(s.waiters[w].gen, true)
  {
    RunKeepsInv(events);
    more := FinishScript(Run(events), w);
    FoldConcat(Step, INITIAL, events, more);
  }
}
