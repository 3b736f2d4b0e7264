/** The HTTP client generations of a DNS-over-HTTPS upstream: exchanges that share, replace and
    retry on clients while the upstream may be closed at any moment. */
module DohClients {
  import opened Bytes
  import opened Runs

  /** Where `Close` stands: the client it took, and the error it published. */
  datatype Closing = Open | Retiring(client: Option<nat>) | Finished(client: Option<nat>, err: bool)

  /** The fields under the client lock. Clients are numbered in the order of their creation. */
  datatype Core = Core(current: Option<nat>, created: nat, closing: Closing)

  datatype Got = Got(client: Option<nat>, cached: bool)
  datatype Replaced = Replaced(client: Option<nat>, dropped: Option<nat>)

  /** The result of `createClient` under the lock: the new current client, or none on failure. */
  function Create(k: Core, ok: bool): Core {
    if ok then k.(current := Some(k.created), created := k.created + 1) else k.(current := None)
  }

  function GetCore(k: Core, late: bool, ok: bool): Core {
    if !k.closing.Open? || k.current.Some? || late then k else Create(k, ok)
  }

  function GetResult(k: Core, late: bool, ok: bool): Got {
    if !k.closing.Open? then Got(None, false)
    else if k.current.Some? then Got(k.current, true)
    else if late then Got(None, false)
    else Got(Create(k, ok).current, false)
  }

  predicate Superseded(k: Core, failed: nat) {
    k.current.Some? && k.current != Some(failed)
  }

  function ResetCore(k: Core, failed: nat, ok: bool): Core {
    if !k.closing.Open? || Superseded(k, failed) then k else Create(k, ok)
  }

  function ResetResult(k: Core, failed: nat, ok: bool): Replaced {
    if !k.closing.Open? then Replaced(None, None)
    else if Superseded(k, failed) then Replaced(k.current, None)
    else Replaced(Create(k, ok).current, k.current)
  }

  function CloseCore(k: Core): Core {
    if k.closing.Open? then k.(current := None, closing := Retiring(k.current)) else k
  }

  function CloseEnd(k: Core, err: bool): Core {
    if k.closing.Retiring? then k.(closing := Finished(k.closing.client, err && k.closing.client.Some?)) else k
  }

  /** The upstream object under its lock. */
  class DohUpstream {
    var client: Option<nat>
    var created: nat
    var closed: bool
    var closeDone: bool
    var closeErr: bool
    ghost var taken: Option<nat>

    ghost function View(): Core
      reads this
    {
      Core(client, created, if !closed then Open else if !closeDone then Retiring(taken) else Finished(taken, closeErr))
    }

    constructor ()
      ensures View() == Core(None, 0, Open)
    {
      client, created, closed, closeDone, closeErr, taken := None, 0, false, false, false, None;
    }

    method CreateClient(ok: bool) returns (c: Option<nat>)
      modifies this`client, this`created
      ensures Core(client, created, Open) == Create(Core(old(client), old(created), Open), ok) && c == client
    {
      if !ok {
        c := None;
      } else {
        c := Some(created);
        created := created + 1;
      }
      client := c;
    }

    method GetClient(late: bool, ok: bool) returns (c: Option<nat>, cached: bool)
      modifies this`client, this`created
      ensures View() == GetCore(old(View()), late, ok)
      ensures Got(c, cached) == GetResult(old(View()), late, ok)
    {
      if closed { return None, false; }
      if client.Some? { return client, true; }
      if late { return None, false; }
      c := CreateClient(ok);
      cached := false;
    }

    /** The lock section of `resetClient`; `retired` is what it closes after unlocking. */
    method ResetClient(failed: nat, ok: bool) returns (c: Option<nat>, retired: Option<nat>)
      modifies this`client, this`created
      ensures View() == ResetCore(old(View()), failed, ok)
      ensures Replaced(c, retired) == ResetResult(old(View()), failed, ok)
    {
      if closed { return None, None; }
      if client.Some? && client != Some(failed) { return client, None; }
      retired := client;
      c := CreateClient(ok);
    }

    /** The lock section of `Close`; `first` says that this caller retires `c`. */
    method BeginClose() returns (first: bool, c: Option<nat>)
      modifies this
      ensures View() == CloseCore(old(View()))
      ensures first <==> old(View()).closing.Open?
      ensures first ==> c == old(client)
    {
      if closed { return false, None; }
      closed, closeDone := true, false;
      c := client;
      taken := c;
      client := None;
      first := true;
    }

    /** The rest of the first `Close`, once `closeClient` has returned. */
    method EndClose(c: Option<nat>, closeFailed: bool) returns (err: bool)
      requires closed && !closeDone && c == taken
      modifies this
      ensures View() == CloseEnd(old(View()), closeFailed)
      ensures View().closing == Finished(c, err)
    {
      err := c.Some? && closeFailed;
      closeErr := err;
      closeDone := true;
    }
  }

  // One exchange and its retry loop.

  /** What `exchangeHTTPS` came to: no error, an error that `shouldRetry` accepts, another error. */
  datatype Outcome = Success | Retryable | Fatal

  const MAX_RETRIES := 2

  /** Where an exchange stands. `Releasing` is inside `resetClient`, about to close the old client. */
  datatype Phase =
    | Sending(client: nat, retries: nat)
    | Resetting(client: nat, retries: nat)
    | Dropping(client: nat)
    | Releasing(dropped: nat, next: Option<nat>, retries: nat)
    | Answered
    | Ended

  /** `cached` says that the first client was in use before; `sent` lists the clients the query
      was sent with. */
  datatype Exchange = Exchange(cached: bool, phase: Phase, sent: seq<nat>)

  function Started(g: Got): Exchange {
    Exchange(g.cached, if g.client.Some? then Sending(g.client.value, 0) else Ended, [])
  }

  function Continued(next: Option<nat>, retries: nat): Phase {
    if next.Some? then Sending(next.value, retries) else Ended
  }

  function AfterSend(e: Exchange, o: Outcome): Exchange
    requires e.phase.Sending?
  {
    var c := e.phase.client;
    Exchange(
      e.cached,
      if o.Success? then Answered
      else if e.cached && o.Retryable? && e.phase.retries < MAX_RETRIES then Resetting(c, e.phase.retries)
      else Dropping(c),
      e.sent + [c])
  }

  function AfterReset(e: Exchange, r: Replaced): Exchange
    requires e.phase.Resetting? || e.phase.Dropping?
  {
    var next := if e.phase.Resetting? then r.client else None;
    var retries := if e.phase.Resetting? then e.phase.retries + 1 else 0;
    e.(phase := if r.dropped.Some? then Releasing(r.dropped.value, next, retries) else Continued(next, retries))
  }

  function AfterReleasing(e: Exchange): Exchange
    requires e.phase.Releasing?
  {
    e.(phase := Continued(e.phase.next, e.phase.retries))
  }

  /** The exchange left to itself from a send on, given how each send and each reset goes. */
  function Drive(e: Exchange, sends: seq<Outcome>, resets: seq<Replaced>): Exchange
    requires |sends| == |resets|
    requires e.phase.Sending?
    decreases |sends|
  {
    if sends == [] then e
    else
      var e1 := AfterSend(e, sends[0]);
      if e1.phase.Answered? then e1
      else
        var e2 := AfterReset(e1, resets[0]);
        var e3 := if e2.phase.Releasing? then AfterReleasing(e2) else e2;
        if e3.phase.Sending? then Drive(e3, sends[1..], resets[1..]) else e3
  }

  /** The retry loop. The results of the calls it makes, which depend on what other goroutines do
      meanwhile, are given; `sent` collects the clients it sends with. */
  method RetryLoop(first: nat, cached: bool, sends: seq<Outcome>, resets: seq<Replaced>)
    returns (answered: bool, sent: seq<nat>)
    requires |sends| == |resets| == MAX_RETRIES + 1
    ensures Exchange(cached, if answered then Answered else Ended, sent)
         == Drive(Exchange(cached, Sending(first, 0), []), sends, resets)
  {
    var client := first;
    sent := [client];
    var outcome := sends[0];
    var i := 0;
    while cached && outcome.Retryable? && i < MAX_RETRIES
      invariant 0 <= i <= MAX_RETRIES && outcome == sends[i] && |sent| == i + 1 && sent[i] == client
      invariant Drive(Exchange(cached, Sending(first, 0), []), sends, resets)
             == Drive(Exchange(cached, Sending(client, i), sent[..i]), sends[i..], resets[i..])
    {
      assert sent[..i] + [client] == sent;
      assert sends[i..][1..] == sends[i + 1..] && resets[i..][1..] == resets[i + 1..];
      var r := resets[i];
      if r.client.None? {
        return false, sent;
      }
      client := r.client.value;
      ghost var was := sent;
      sent := sent + [client];
      assert sent[..i + 1] == was;
      i := i + 1;
      outcome := sends[i];
    }
    assert sent[..i] + [client] == sent;
    answered := outcome.Success?;
  }

  // All exchanges and closers together.

  /** `handed` maps a client out of use to the exchange about to close it, `retired` counts the
      calls of `closeClient` that were made, and `closers` holds what each `Close` returned. */
  datatype State = State(
    core: Core,
    exchanges: map<nat, Exchange>,
    handed: map<nat, nat>,
    retired: multiset<nat>,
    closers: map<nat, bool>)

  const INITIAL := State(Core(None, 0, Open), map[], map[], multiset{}, map[])

  datatype Event =
    | Begin(x: nat, late: bool, ok: bool)
    | Send(x: nat, outcome: Outcome)
    | Reset(x: nat, ok: bool)
    | CloseOld(x: nat)
    | CloseUpstream
    | CloseRetires(err: bool)
    | CloseReturns(closer: nat)

  function BeginStep(s: State, x: nat, late: bool, ok: bool): State {
    s.(core := GetCore(s.core, late, ok), exchanges := s.exchanges[x := Started(GetResult(s.core, late, ok))])
  }

  function ResetStep(s: State, x: nat, ok: bool): State
    requires x in s.exchanges && (s.exchanges[x].phase.Resetting? || s.exchanges[x].phase.Dropping?)
  {
    var failed := s.exchanges[x].phase.client;
    var r := ResetResult(s.core, failed, ok);
    s.(core := ResetCore(s.core, failed, ok),
       exchanges := s.exchanges[x := AfterReset(s.exchanges[x], r)],
       handed := if r.dropped.Some? then s.handed[r.dropped.value := x] else s.handed)
  }

  function CloseOldStep(s: State, x: nat): State
    requires x in s.exchanges && s.exchanges[x].phase.Releasing?
  {
    var c := s.exchanges[x].phase.dropped;
    s.(exchanges := s.exchanges[x := AfterReleasing(s.exchanges[x])],
       handed := s.handed - {c},
       retired := s.retired + multiset{c})
  }

  function CloseRetiresStep(s: State, err: bool): State
    requires s.core.closing.Retiring?
  {
    var c := s.core.closing.client;
    s.(core := CloseEnd(s.core, err), retired := if c.Some? then s.retired + multiset{c.value} else s.retired)
  }

  /** A step that is not enabled changes nothing. */
  function Step(s: State, e: Event): State {
    match e
    case Begin(x, late, ok) => if x in s.exchanges then s else BeginStep(s, x, late, ok)
    case Send(x, o) =>
      if x in s.exchanges && s.exchanges[x].phase.Sending?
      then s.(exchanges := s.exchanges[x := AfterSend(s.exchanges[x], o)]) else s
    case Reset(x, ok) =>
      if x in s.exchanges && (s.exchanges[x].phase.Resetting? || s.exchanges[x].phase.Dropping?)
      then ResetStep(s, x, ok) else s
    case CloseOld(x) => if x in s.exchanges && s.exchanges[x].phase.Releasing? then CloseOldStep(s, x) else s
    case CloseUpstream => s.(core := CloseCore(s.core))
    case CloseRetires(err) => if s.core.closing.Retiring? then CloseRetiresStep(s, err) else s
    case CloseReturns(w) => if s.core.closing.Finished? then s.(closers := s.closers[w := s.core.closing.err]) else s
  }

  /** The state reached by any interleaving. */
  function Run(events: seq<Event>): State {
    Fold(Step, INITIAL, events)
  }

  // What every step keeps.

  function One(b: bool): nat { if b then 1 else 0 }

  predicate HeldByClose(s: State, c: nat) { s.core.closing == Retiring(Some(c)) }

  predicate TakenByClose(s: State, c: nat) { !s.core.closing.Open? && s.core.closing.client == Some(c) }

  /** In how many places client `c` is: in use, on its way to being closed, or closed. */
  function Places(s: State, c: nat): nat {
    One(s.core.current == Some(c)) + One(c in s.handed) + One(HeldByClose(s, c)) + s.retired[c]
  }

  ghost predicate Conserved(s: State) {
    forall c: nat :: Places(s, c) == One(c < s.core.created)
  }

  predicate CoreOk(k: Core) {
    && (k.current.Some? ==> k.current.value < k.created && k.closing.Open?)
    && (!k.closing.Open? && k.closing.client.Some? ==> k.closing.client.value < k.created)
  }

  /** The clients an exchange has failed with and asked to be replaced. */
  function GivenUp(e: Exchange): seq<nat> {
    if (e.phase.Resetting? || e.phase.Dropping? || e.phase.Answered?) && |e.sent| > 0 then e.sent[..|e.sent| - 1]
    else e.sent
  }

  /** The clients an exchange has failed with. */
  function Failures(e: Exchange): seq<nat> {
    if e.phase.Answered? && |e.sent| > 0 then e.sent[..|e.sent| - 1] else e.sent
  }

  predicate CountsOk(e: Exchange) {
    (!e.cached ==> |e.sent| <= 1) &&
    match e.phase
    case Sending(c, r) => |e.sent| == r <= MAX_RETRIES && (!e.cached ==> r == 0)
    case Resetting(c, r) => |e.sent| == r + 1 <= MAX_RETRIES && e.cached
    case Dropping(c) => 0 < |e.sent| <= MAX_RETRIES + 1
    case Releasing(d, next, r) =>
      0 < |e.sent| <= MAX_RETRIES + 1 && (next.Some? ==> |e.sent| == r <= MAX_RETRIES && e.cached)
    case Answered => 0 < |e.sent| <= MAX_RETRIES + 1
    case Ended => |e.sent| <= MAX_RETRIES + 1
  }

  /** The client an exchange will send with next was not among those it has sent with. */
  predicate FreshNext(e: Exchange) {
    && Distinct(e.sent)
    && (e.phase.Sending? ==> e.phase.client !in e.sent)
    && (e.phase.Releasing? && e.phase.next.Some? ==> e.phase.next.value !in e.sent)
    && (e.phase.Resetting? || e.phase.Dropping? ==> |e.sent| > 0 && e.sent[|e.sent| - 1] == e.phase.client)
  }

  predicate Distinct(s: seq<nat>) {
    forall i, j :: 0 <= i < j < |s| ==> s[i] != s[j]
  }

  ghost predicate ExchangeOk(k: Core, e: Exchange) {
    && CountsOk(e) && FreshNext(e)
    && (forall c :: c in e.sent ==> c < k.created)
    && (e.phase.Sending? ==> e.phase.client < k.created)
    && (e.phase.Releasing? && e.phase.next.Some? ==> e.phase.next.value < k.created)
    && (forall c :: c in GivenUp(e) ==> k.current != Some(c))
  }

  ghost predicate ExchangesOk(s: State) {
    forall x :: x in s.exchanges ==> ExchangeOk(s.core, s.exchanges[x])
  }

  predicate Releases(s: State, x: nat, c: nat) {
    x in s.exchanges && s.exchanges[x].phase.Releasing? && s.exchanges[x].phase.dropped == c
  }

  /** A handed over client and the exchange that closes it know of each other. */
  ghost predicate HandedOk(s: State) {
    && (forall c :: c in s.handed ==> Releases(s, s.handed[c], c))
    && (forall x, c :: Releases(s, x, c) ==> c in s.handed && s.handed[c] == x)
  }

  ghost predicate Blamed(s: State, c: nat) {
    exists x :: x in s.exchanges && c in Failures(s.exchanges[x])
  }

  /** A client leaves use only because an exchange failed with it or because of `Close`. */
  ghost predicate BlameOk(s: State) {
    forall c: nat :: c < s.core.created && s.core.current != Some(c) && !TakenByClose(s, c) ==> Blamed(s, c)
  }

  ghost predicate ClosersOk(s: State) {
    && (s.core.closing.Finished? && s.core.closing.client.Some? ==> s.core.closing.client.value in s.retired)
    && forall w :: w in s.closers ==> s.core.closing.Finished? && s.closers[w] == s.core.closing.err
  }

  ghost predicate Inv(s: State) {
    CoreOk(s.core) && Conserved(s) && ExchangesOk(s) && HandedOk(s) && BlameOk(s) && ClosersOk(s)
  }

  lemma ConservedKept(s: State, e: Event)
    requires Inv(s)
    ensures Conserved(Step(s, e))
  {
    var s' := Step(s, e);
    forall c: nat ensures Places(s', c) == One(c < s'.core.created) {
      assert Places(s, c) == One(c < s.core.created);
      if e.CloseOld? && e.x in s.exchanges && s.exchanges[e.x].phase.Releasing? {
        assert Releases(s, e.x, s.exchanges[e.x].phase.dropped);
      }
    }
  }

  lemma HandedByReset(s: State, x: nat, ok: bool)
    requires Inv(s) && x in s.exchanges && (s.exchanges[x].phase.Resetting? || s.exchanges[x].phase.Dropping?)
    ensures HandedOk(ResetStep(s, x, ok))
  {
    var s' := ResetStep(s, x, ok);
    if s.core.current.Some? { assert Places(s, s.core.current.value) == 1; }
    forall y: nat, c: nat | Releases(s', y, c) ensures c in s'.handed && s'.handed[c] == y {
      assert y != x ==> Releases(s, y, c);
    }
    forall c | c in s'.handed ensures Releases(s', s'.handed[c], c) {
      assert c in s.handed ==> Releases(s, s.handed[c], c);
    }
  }

  lemma HandedByRelease(s: State, x: nat)
    requires Inv(s) && x in s.exchanges && s.exchanges[x].phase.Releasing?
    ensures HandedOk(CloseOldStep(s, x))
  {
    var s' := CloseOldStep(s, x);
    assert Releases(s, x, s.exchanges[x].phase.dropped);
    forall y: nat, c: nat | Releases(s', y, c) ensures c in s'.handed && s'.handed[c] == y {
      assert Releases(s, y, c);
    }
    forall c | c in s'.handed ensures Releases(s', s'.handed[c], c) {
      assert Releases(s, s.handed[c], c);
    }
  }

  lemma HandedElse(s: State, s': State)
    requires HandedOk(s) && s'.handed == s.handed
    requires forall y: nat, c: nat :: Releases(s', y, c) <==> Releases(s, y, c)
    ensures HandedOk(s')
  {
  }

  lemma HandedKept(s: State, e: Event)
    requires Inv(s)
    ensures HandedOk(Step(s, e))
  {
    var s' := Step(s, e);
    if s' == s {
    } else if e.Reset? {
      HandedByReset(s, e.x, e.ok);
    } else if e.CloseOld? {
      HandedByRelease(s, e.x);
    } else {
      HandedElse(s, s');
    }
  }

  /** Only the current client and new ones can be current after a step. */
  lemma CoreMoves(s: State, e: Event)
    requires Inv(s)
    ensures var k, k' := s.core, Step(s, e).core;
            && CoreOk(k') && k.created <= k'.created
            && (k'.current.Some? ==> k'.current == k.current || k'.current.value >= k.created)
  {
  }

  lemma ExchangeMovesOk(k: Core, k': Core, e: Exchange)
    requires CoreOk(k) && ExchangeOk(k, e) && k.created <= k'.created
    requires k'.current.Some? ==> k'.current == k.current || k'.current.value >= k.created
    ensures ExchangeOk(k', e)
  {
    forall c | c in GivenUp(e) ensures k'.current != Some(c) {
      assert c in e.sent;
    }
  }

  lemma StartedOk(k: Core, late: bool, ok: bool)
    requires CoreOk(k)
    ensures ExchangeOk(GetCore(k, late, ok), Started(GetResult(k, late, ok)))
  {
  }

  lemma DistinctSnoc(s: seq<nat>, c: nat)
    requires Distinct(s) && c !in s
    ensures Distinct(s + [c])
  {
  }

  lemma SentOk(k: Core, e: Exchange, o: Outcome)
    requires CoreOk(k) && ExchangeOk(k, e) && e.phase.Sending?
    ensures ExchangeOk(k, AfterSend(e, o))
  {
    var e' := AfterSend(e, o);
    DistinctSnoc(e.sent, e.phase.client);
    assert e'.sent[..|e'.sent| - 1] == e.sent;
    assert GivenUp(e') == GivenUp(e);
    assert FreshNext(e');
  }

  /** The failed client is not current after a reset, nor is any that had failed before. */
  lemma ResetRemoves(k: Core, e: Exchange, ok: bool, d: nat)
    requires CoreOk(k) && ExchangeOk(k, e) && (e.phase.Resetting? || e.phase.Dropping?) && d in e.sent
    ensures ResetCore(k, e.phase.client, ok).current != Some(d)
  {
    assert d < k.created && (d == e.phase.client || d in GivenUp(e));
  }

  lemma ReplacedOk(k: Core, e: Exchange, r: Replaced)
    requires CountsOk(e) && FreshNext(e) && (e.phase.Resetting? || e.phase.Dropping?)
    requires forall d :: d in e.sent ==> d < k.created && k.current != Some(d)
    requires r.client.Some? ==> r.client == k.current && r.client.value < k.created
    ensures ExchangeOk(k, AfterReset(e, r))
  {
  }

  lemma ResetOk(k: Core, e: Exchange, ok: bool)
    requires CoreOk(k) && ExchangeOk(k, e) && (e.phase.Resetting? || e.phase.Dropping?)
    ensures ExchangeOk(ResetCore(k, e.phase.client, ok), AfterReset(e, ResetResult(k, e.phase.client, ok)))
  {
    var k' := ResetCore(k, e.phase.client, ok);
    forall d | d in e.sent ensures d < k'.created && k'.current != Some(d) {
      ResetRemoves(k, e, ok, d);
    }
    ReplacedOk(k', e, ResetResult(k, e.phase.client, ok));
  }

  lemma ReleasedOk(k: Core, e: Exchange)
    requires ExchangeOk(k, e) && e.phase.Releasing?
    ensures ExchangeOk(k, AfterReleasing(e))
  {
  }

  lemma ExchangeKept(s: State, e: Event, x: nat)
    requires Inv(s) && x in Step(s, e).exchanges
    ensures ExchangeOk(Step(s, e).core, Step(s, e).exchanges[x])
  {
    var s' := Step(s, e);
    CoreMoves(s, e);
    if x in s.exchanges && s'.exchanges[x] == s.exchanges[x] {
      ExchangeMovesOk(s.core, s'.core, s.exchanges[x]);
    } else if e.Begin? {
      StartedOk(s.core, e.late, e.ok);
    } else if e.Send? {
      SentOk(s.core, s.exchanges[x], e.outcome);
    } else if e.Reset? {
      ResetOk(s.core, s.exchanges[x], e.ok);
    } else {
      assert s'.core == s.core;
      ReleasedOk(s.core, s.exchanges[x]);
    }
  }

  lemma ExchangesKept(s: State, e: Event)
    requires Inv(s)
    ensures ExchangesOk(Step(s, e))
  {
    forall x | x in Step(s, e).exchanges ensures ExchangeOk(Step(s, e).core, Step(s, e).exchanges[x]) {
      ExchangeKept(s, e, x);
    }
  }

  lemma FailuresGrow(s: State, e: Event, x: nat)
    requires x in s.exchanges
    ensures var s' := Step(s, e); x in s'.exchanges && Failures(s.exchanges[x]) <= Failures(s'.exchanges[x])
  {
  }

  lemma BlameStays(s: State, e: Event, c: nat)
    requires Blamed(s, c)
    ensures Blamed(Step(s, e), c)
  {
    var x :| x in s.exchanges && c in Failures(s.exchanges[x]);
    FailuresGrow(s, e, x);
    assert c in Failures(Step(s, e).exchanges[x]);
  }

  /** A step takes a client out of use only if it closes the upstream or resets on that failed client. */
  lemma LeavesUse(s: State, e: Event, c: nat)
    requires Inv(s) && s.core.current == Some(c) && Step(s, e).core.current != Some(c)
    ensures TakenByClose(Step(s, e), c) || Blamed(s, c)
  {
    if e.Reset? {
      assert c in Failures(s.exchanges[e.x]);
    }
  }

  lemma BlameKept(s: State, e: Event)
    requires Inv(s)
    ensures BlameOk(Step(s, e))
  {
    var s' := Step(s, e);
    forall c: nat | c < s'.core.created && s'.core.current != Some(c) && !TakenByClose(s', c) ensures Blamed(s', c) {
      if s.core.current == Some(c) { LeavesUse(s, e, c); }
      BlameStays(s, e, c);
    }
  }

  lemma StepKeepsInv(s: State, e: Event)
    requires Inv(s)
    ensures Inv(Step(s, e))
  {
    ConservedKept(s, e);
    HandedKept(s, e);
    CoreMoves(s, e);
    ExchangesKept(s, e);
    BlameKept(s, e);
  }

  lemma {:induction false} RunKeepsInv(events: seq<Event>)
    ensures Inv(Run(events))
  {
    if events == [] {
    } else {
      RunKeepsInv(events[..|events| - 1]);
      StepKeepsInv(Run(events[..|events| - 1]), events[|events| - 1]);
    }
  }

  // What holds in every interleaving.

  /** Every client ever created is in exactly one place, and is closed at most once. */
  lemma EveryClientAccounted(events: seq<Event>, c: nat)
    ensures var s := Run(events);
            Places(s, c) == One(c < s.core.created) && s.retired[c] <= 1
  {
    RunKeepsInv(events);
    assert Places(Run(events), c) == One(c < Run(events).core.created);
  }

  /** A client out of use was given up by an exchange that failed with it, unless `Close` took it. */
  lemma OutOfUseForCause(events: seq<Event>, c: nat)
    requires c < Run(events).core.created && Run(events).core.current != Some(c) && !TakenByClose(Run(events), c)
    ensures Blamed(Run(events), c)
  {
    RunKeepsInv(events);
  }

  predicate FailedOn(e: Exchange, c: nat) {
    (e.phase.Resetting? || e.phase.Dropping?) && e.phase.client == c
  }

  /** A failure on an older client leaves its successor in use and out of every hand. */
  lemma LateFailureHarmless(events: seq<Event>, x: nat, ok: bool, d: nat)
    requires var s := Run(events);
             s.core.current == Some(d) && x in s.exchanges && !FailedOn(s.exchanges[x], d)
    ensures var s' := Run(events + [Reset(x, ok)]);
            s'.core.current == Some(d) && d !in s'.handed && s'.retired[d] == 0
  {
    RunKeepsInv(events);
    FoldSnoc(Step, INITIAL, events, Reset(x, ok));
    EveryClientAccounted(events + [Reset(x, ok)], d);
  }

  /** At most three sends, one when the client was new, and never twice with the same client. */
  lemma AttemptsBounded(events: seq<Event>, x: nat)
    requires x in Run(events).exchanges
    ensures var e := Run(events).exchanges[x];
            |e.sent| <= 3 && (!e.cached ==> |e.sent| <= 1) && Distinct(e.sent)
  {
    RunKeepsInv(events);
    assert ExchangeOk(Run(events).core, Run(events).exchanges[x]);
  }

  /** After a send, an exchange is retried exactly if its first client had been in use, the error allows
      it, and fewer than three sends were made; it is answered exactly on success. */
  lemma RetriedIff(events: seq<Event>, x: nat, o: Outcome)
    requires x in Run(events).exchanges && Run(events).exchanges[x].phase.Sending?
    ensures var e, e' := Run(events).exchanges[x], Run(events + [Send(x, o)]).exchanges[x];
            && e'.sent == e.sent + [e.phase.client]
            && (e'.phase.Resetting? <==> e.cached && o.Retryable? && |e'.sent| < 3)
            && (e'.phase.Answered? <==> o.Success?)
  {
    RunKeepsInv(events);
    assert ExchangeOk(Run(events).core, Run(events).exchanges[x]);
    FoldSnoc(Step, INITIAL, events, Send(x, o));
  }

  /** An exchange begins with the client in use, or with a new one if it is not late and one can be
      made, and then only while the upstream is open. */
  lemma BeginsWith(events: seq<Event>, x: nat, late: bool, ok: bool)
    requires x !in Run(events).exchanges
    ensures var s, s' := Run(events), Run(events + [Begin(x, late, ok)]);
            && x in s'.exchanges
            && (s'.exchanges[x].phase.Sending? <==> s.core.closing.Open? && (s.core.current.Some? || (!late && ok)))
            && (s'.exchanges[x].phase.Sending? ==> s'.exchanges[x].phase == Sending(
                  if s.core.current.Some? then s.core.current.value else s.core.created, 0))
            && s'.core.created == s.core.created +
                 One(s.core.closing.Open? && s.core.current.None? && !late && ok)
  {
    FoldSnoc(Step, INITIAL, events, Begin(x, late, ok));
  }

  /** No client of an exchange that ended in an error is given to an exchange that begins later. */
  lemma FailedClientGone(events: seq<Event>, x: nat, y: nat, late: bool, ok: bool)
    requires x in Run(events).exchanges && Run(events).exchanges[x].phase.Ended? && y !in Run(events).exchanges
    ensures var s' := Run(events + [Begin(y, late, ok)]);
            && y in s'.exchanges
            && (s'.exchanges[y].phase.Sending? ==> s'.exchanges[y].phase.client !in s'.exchanges[x].sent)
  {
    RunKeepsInv(events);
    var s := Run(events);
    assert ExchangeOk(s.core, s.exchanges[x]);
    FoldSnoc(Step, INITIAL, events, Begin(y, late, ok));
  }

  /** The client exchange `x` will send with next. */
  function NextClient(s: State, x: nat): Option<nat>
    requires x in s.exchanges
  {
    match s.exchanges[x].phase
    case Sending(c, _) => Some(c)
    case Releasing(_, next, _) => next
    case _ => None
  }

  /** While the upstream is open and clients can be created, an exchange that begins or retries
      goes on with the client in use, and a retry with one it has not failed with. */
  lemma OpenUpstreamProvides(events: seq<Event>, e: Event)
    requires var s := Run(events);
             && s.core.closing.Open?
             && match e
                case Begin(x, late, ok) => x !in s.exchanges && !late && ok
                case Reset(x, ok) => x in s.exchanges && s.exchanges[x].phase.Resetting? && ok
                case _ => false
    ensures var s, s' := Run(events), Run(events + [e]);
            && e.x in s'.exchanges && s'.core.current.Some? && NextClient(s', e.x) == s'.core.current
            && NextClient(s', e.x).value !in s'.exchanges[e.x].sent
            && (e.Begin? ==> s'.exchanges[e.x].cached == s.core.current.Some?)
  {
    FoldSnoc(Step, INITIAL, events, e);
    RunKeepsInv(events + [e]);
    assert ExchangeOk(Run(events + [e]).core, Run(events + [e]).exchanges[e.x]);
  }

  /** How many sends exchange `x` has made or is bound to make if it gets no other client. */
  function Sends(s: State, x: nat): nat {
    if x !in s.exchanges then 0
    else
      var e := s.exchanges[x];
      |e.sent| + One(e.phase.Sending? || (e.phase.Releasing? && e.phase.next.Some?))
  }

  predicate Shut(s: State) { s.core.current.None? && !s.core.closing.Open? }

  lemma ShutStays(s: State, e: Event, x: nat)
    requires Shut(s)
    ensures var s' := Step(s, e);
            && Shut(s') && s'.core.created == s.core.created && s'.core.closing.client == s.core.closing.client
            && Sends(s', x) <= Sends(s, x)
  {
  }

  /** After `Close` no client is in use, none is created, and an exchange makes at most the send
      it was about to make. */
  lemma {:induction false} NothingAfterClose(events: seq<Event>, more: seq<Event>, x: nat)
    requires !Run(events).core.closing.Open?
    ensures var s, s' := Run(events), Run(events + more);
            && Shut(s') && s'.core.created == s.core.created && s'.core.closing.client == s.core.closing.client
            && Sends(s', x) <= Sends(s, x)
  {
    if more == [] {
      assert events + more == events;
      RunKeepsInv(events);
    } else {
      var front, e := more[..|more| - 1], more[|more| - 1];
      assert events + more == events + front + [e];
      NothingAfterClose(events, front, x);
      FoldSnoc(Step, INITIAL, events + front, e);
      ShutStays(Run(events + front), e, x);
    }
  }

  lemma FinishingStep(s: State, e: Event)
    requires Step(s, e).core.closing.Finished?
    ensures s.core.closing.Finished? ==> Step(s, e).core.closing == s.core.closing
    ensures !s.core.closing.Finished? ==>
              && e.CloseRetires? && s.core.closing.Retiring?
              && Step(s, e).core.closing == Finished(s.core.closing.client, e.err && s.core.closing.client.Some?)
  {
  }

  /** The error published is that of closing the client taken, none if there was no client. */
  lemma {:induction false} CloseErrorOrigin(events: seq<Event>) returns (i: nat)
    requires Run(events).core.closing.Finished?
    ensures i < |events| && events[i].CloseRetires? && Run(events[..i]).core.closing.Retiring?
    ensures var k := Run(events).core.closing;
            && k.client == Run(events[..i]).core.closing.client
            && k.err == (events[i].err && k.client.Some?)
  {
    var front := events[..|events| - 1];
    assert Run(events) == Step(Run(front), events[|front|]);
    FinishingStep(Run(front), events[|front|]);
    if Run(front).core.closing.Finished? {
      i := CloseErrorOrigin(front);
      assert front[..i] == events[..i];
    } else {
      i := |front|;
    }
  }

  /** All calls of `Close` return one error, after the client it took has been closed. */
  lemma ClosersAgree(events: seq<Event>, v: nat, w: nat)
    requires v in Run(events).closers && w in Run(events).closers
    ensures var s := Run(events);
            && s.closers[v] == s.closers[w]
            && s.core.closing.Finished? && (s.core.closing.client.Some? ==> s.retired[s.core.closing.client.value] == 1)
  {
    RunKeepsInv(events);
    var s := Run(events);
    if s.core.closing.client.Some? {
      var c := s.core.closing.client.value;
      assert Places(s, c) == 1;
    }
  }
}
