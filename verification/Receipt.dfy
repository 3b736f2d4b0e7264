/** The one-shot decision of an exchange: tickets, seal, cutoff, and every interleaving of its calls. */
module Receipt {
  import opened Bytes
  import opened Runs

  /** A response; `body` stands for everything but its ID. */
  datatype Msg = Msg(id: int, body: seq<byte>)

  datatype Error = DeadlineExceeded | Abandoned | NoReply | Other(text: string)

  datatype Decision = Pending | Success(response: Msg, receivedAt: int) | Failure(err: Error)

  /** The fields of an exchange state. `closes` counts how often `done` was closed. */
  datatype Exchange = Exchange(
    result: Decision,
    deadline: Option<int>,
    received: int,
    closes: nat,
    ticket: int,
    original: int,
    started: bool,
    reserved: bool,
    sealed: bool,
    finished: bool)

  const TICKETS := 0x1_0000_0000_0000_0000

  function New(cutoff: Option<int>): Exchange {
    Exchange(Pending, cutoff, 0, 0, 0, 0, false, false, false, false)
  }

  predicate Late(s: Exchange, now: int) {
    s.deadline.Some? && now > s.deadline.value
  }

  function Complete(s: Exchange, d: Decision): Exchange {
    if s.finished then s else s.(result := d, finished := true, reserved := false, closes := s.closes + 1)
  }

  /** A frame that may be a final response: long enough, the right ID, a response, and not a
      truncated datagram. */
  predicate Candidate(wire: seq<byte>, id: int, udp: bool) {
    && |wire| >= 12 && U16(wire[..2]) == id
    && wire[2] / 128 % 2 == 1 && !(udp && wire[2] / 2 % 2 == 1)
  }

  /** The header of a final response, bit by bit: its ID, the response bit, and over datagrams no
      truncation bit. */
  predicate FinalHeader(wire: seq<byte>, id: int, udp: bool) {
    && |wire| >= 12 && wire[0] as int * 256 + wire[1] as int == id
    && BitAt(wire[2], 7) == 1 && (udp ==> BitAt(wire[2], 1) == 0)
  }

  lemma CandidateIff(wire: seq<byte>, id: int, udp: bool)
    ensures Candidate(wire, id, udp) <==> FinalHeader(wire, id, udp)
  {
    if |wire| >= 12 {
      var b := wire[2];
      assert BitAt(b, 1) == b / 2 % 2;
      assert BitAt(b, 7) == BitAt(b / 2 / 2, 5) == BitAt(b / 16, 3);
      assert BitAt(b / 16, 3) == BitAt(b / 16 / 2 / 2, 1) == b / 128 % 2;
    }
  }

  /** The same over the fields of section 4.1.1 of RFC 1035. */
  lemma CandidateFields(wire: seq<byte>, id: int, udp: bool, qr: int, opcode: int, aa: int, tc: int, rd: int)
    requires |wire| >= 12 && 0 <= id < 0x10000
    requires 0 <= qr < 2 && 0 <= opcode < 16 && 0 <= aa < 2 && 0 <= tc < 2 && 0 <= rd < 2
    requires wire[2] == 128 * qr + 8 * opcode + 4 * aa + 2 * tc + rd
    ensures Candidate(wire, id, udp) <==> wire[..2] == BE16(id) && qr == 1 && !(udp && tc == 1)
  {
    BE16RoundTrip(id);
  }

  /** The calls, each one lock-protected section; `now` is the clock read inside it. */
  datatype Call =
    | Start(id: int)
    | Reserve(wire: seq<byte>, wantId: int, udp: bool, now: int)
    | ReserveCandidate(now: int)
    | Reject(ticket: int, now: int)
    | Accept(ticket: int, response: Msg)
    | Finish(err: Option<Error>)
    | Expire
    | Abandon

  function ReserveStep(s: Exchange, now: int): Exchange {
    if s.finished || s.sealed || s.reserved then s
    else if Late(s, now) then Complete(s, Failure(DeadlineExceeded))
    else s.(ticket := (s.ticket + 1) % TICKETS, reserved := true, received := now)
  }

  /** A reservation holds a ticket after the step and did not before: the caller gets its number. */
  function Granted(s: Exchange, s': Exchange): int {
    if !s.reserved && s'.reserved then s'.ticket else 0
  }

  function Step(s: Exchange, c: Call): Exchange {
    match c
    case Start(id) => if s.started then s else s.(started := true, original := id)
    case Reserve(wire, wantId, udp, now) => if Candidate(wire, wantId, udp) then ReserveStep(s, now) else s
    case ReserveCandidate(now) => ReserveStep(s, now)
    case Reject(ticket, now) =>
      if ticket == 0 || s.finished || !s.reserved || ticket != s.ticket then s
      else
        var s' := s.(reserved := false);
        if s'.sealed || Late(s', now) then Complete(s', Failure(DeadlineExceeded)) else s'
    case Accept(ticket, response) =>
      if ticket != 0 && !s.finished && s.reserved && ticket == s.ticket
      then Complete(s, Success(response.(id := s.original), s.received))
      else s
    case Finish(err) => Complete(s, Failure(if err.None? then NoReply else err.value))
    case Expire => var s' := s.(sealed := true); if s'.reserved then s' else Complete(s', Failure(DeadlineExceeded))
    case Abandon => Complete(s, Failure(Abandoned))
  }

  /** The lock-protected object itself. */
  class ExchangeState {
    var result: Decision
    const deadline: Option<int>
    var received: int
    var closes: nat
    var ticket: int
    var original: int
    var started: bool
    var reserved: bool
    var sealed: bool
    var finished: bool

    function View(): Exchange
      reads this
    {
      Exchange(result, deadline, received, closes, ticket, original, started, reserved, sealed, finished)
    }

    constructor (cutoff: Option<int>)
      ensures View() == New(cutoff)
    {
      deadline := cutoff;
      result, received, closes, ticket, original := Pending, 0, 0, 0, 0;
      started, reserved, sealed, finished := false, false, false, false;
    }

    method CompleteLocked(d: Decision)
      modifies this
      ensures View() == Complete(old(View()), d)
    {
      if !finished {
        result, finished, reserved := d, true, false;
        closes := closes + 1;
      }
    }

    method DoStart(id: int) returns (ok: bool)
      modifies this
      ensures View() == Step(old(View()), Start(id)) && ok == !old(started)
    {
      if started { return false; }
      started, original := true, id;
      ok := true;
    }

    method DoReserve(wire: seq<byte>, id: int, udp: bool, now: int) returns (t: int)
      modifies this
      ensures View() == Step(old(View()), Reserve(wire, id, udp, now))
      ensures t == Granted(old(View()), View())
    {
      if |wire| < 12 || U16(wire[..2]) != id || wire[2] / 128 % 2 == 0 || (udp && wire[2] / 2 % 2 != 0) { return 0; }
      t := DoReserveCandidate(now);
    }

    method DoReserveCandidate(now: int) returns (t: int)
      modifies this
      ensures View() == ReserveStep(old(View()), now)
      ensures t == Granted(old(View()), View())
    {
      if finished || sealed || reserved { return 0; }
      if deadline.Some? && now > deadline.value {
        CompleteLocked(Failure(DeadlineExceeded));
        return 0;
      }
      ticket := (ticket + 1) % TICKETS;
      reserved, received := true, now;
      t := ticket;
    }

    method DoReject(t: int, now: int)
      modifies this
      ensures View() == Step(old(View()), Reject(t, now))
    {
      if t == 0 { return; }
      if finished || !reserved || t != ticket { return; }
      reserved := false;
      if sealed || (deadline.Some? && now > deadline.value) { CompleteLocked(Failure(DeadlineExceeded)); }
    }

    method DoAccept(t: int, response: Msg)
      modifies this
      ensures View() == Step(old(View()), Accept(t, response))
    {
      if t == 0 { return; }
      var copy := response;
      if !finished && reserved && t == ticket {
        copy := copy.(id := original);
        CompleteLocked(Success(copy, received));
      }
    }

    method DoFinish(err: Option<Error>)
      modifies this
      ensures View() == Step(old(View()), Finish(err))
    {
      var e := if err.None? then NoReply else err.value;
      CompleteLocked(Failure(e));
    }

    method DoExpire()
      modifies this
      ensures View() == Step(old(View()), Expire)
    {
      sealed := true;
      if !reserved { CompleteLocked(Failure(DeadlineExceeded)); }
    }

    method DoAbandon()
      modifies this
      ensures View() == Step(old(View()), Abandon)
    {
      CompleteLocked(Failure(Abandoned));
    }
  }

  // Every interleaving: any sequence of calls from any number of goroutines.

  function Run(cutoff: Option<int>, calls: seq<Call>): Exchange {
    Fold(Step, New(cutoff), calls)
  }

  lemma RunSnoc(cutoff: Option<int>, calls: seq<Call>, n: nat)
    requires n < |calls|
    ensures Run(cutoff, calls[..n + 1]) == Step(Run(cutoff, calls[..n]), calls[n])
  {
    assert calls[..n + 1][..n] == calls[..n];
  }

  /** What every call keeps. */
  ghost predicate Inv(s: Exchange) {
    && s.closes == (if s.finished then 1 else 0)
    && (s.finished <==> s.result != Pending)
    && !(s.finished && s.reserved)
    && (s.sealed && !s.reserved ==> s.finished)
    && (s.reserved ==> !Late(s, s.received))
    && 0 <= s.ticket < TICKETS
  }

  /** `done` is closed at most once, exactly when the decision is made; finished excludes
      reserved; sealed and not reserved implies finished. */
  lemma {:induction false} InvHolds(cutoff: Option<int>, calls: seq<Call>)
    ensures Inv(Run(cutoff, calls))
  {
    if calls == [] {
    } else {
      InvHolds(cutoff, calls[..|calls| - 1]);
    }
  }

  /** A decision, once made, never changes, and `done` is never closed again. */
  lemma {:induction false} DecisionIsFinal(cutoff: Option<int>, calls: seq<Call>, i: nat)
    requires i <= |calls| && Run(cutoff, calls[..i]).finished
    ensures Run(cutoff, calls).finished && Run(cutoff, calls).result == Run(cutoff, calls[..i]).result
    ensures Run(cutoff, calls).closes == Run(cutoff, calls[..i]).closes
  {
    if i < |calls| {
      assert calls[..|calls| - 1][..i] == calls[..i];
      DecisionIsFinal(cutoff, calls[..|calls| - 1], i);
    } else {
      assert calls[..i] == calls;
    }
  }

  /** No call among the first `j` ends the exchange. */
  ghost predicate NoEndBefore(calls: seq<Call>, j: nat)
    requires j <= |calls|
  {
    forall k :: 0 <= k < j ==> !calls[k].Expire? && !calls[k].Abandon? && !calls[k].Finish?
  }

  /** Call `c`, made in state `s`, is granted a ticket. */
  predicate Grants(s: Exchange, c: Call) {
    && !s.finished && !s.sealed && !s.reserved
    && (c.ReserveCandidate? || (c.Reserve? && FinalHeader(c.wire, c.wantId, c.udp)))
    && (s.deadline.Some? ==> c.now <= s.deadline.value)
  }

  /** Call `j` granted the reservation that is held after the first `n` calls. */
  ghost predicate HeldSince(cutoff: Option<int>, calls: seq<Call>, n: nat, j: nat)
    requires n <= |calls|
  {
    && j < n && NoEndBefore(calls, j) && Grants(Run(cutoff, calls[..j]), calls[j])
    && var s := Run(cutoff, calls[..n]);
    s.reserved && s.received == calls[j].now && s.ticket == (Run(cutoff, calls[..j]).ticket + 1) % TICKETS
  }

  /** Sealing and finishing leave their mark: an open exchange has seen no such call. */
  lemma {:induction false} OpenMeansNoEnd(cutoff: Option<int>, calls: seq<Call>)
    ensures !Run(cutoff, calls).sealed ==> forall k :: 0 <= k < |calls| ==> !calls[k].Expire?
    ensures !Run(cutoff, calls).finished ==> forall k :: 0 <= k < |calls| ==> !calls[k].Abandon? && !calls[k].Finish?
  {
    if calls == [] {
    } else {
      OpenMeansNoEnd(cutoff, calls[..|calls| - 1]);
    }
  }

  lemma StepReserved(s: Exchange, c: Call)
    requires Step(s, c).reserved
    ensures s.reserved ==> Step(s, c).ticket == s.ticket && Step(s, c).received == s.received
    ensures !s.reserved ==>
              Grants(s, c) && Step(s, c).ticket == (s.ticket + 1) % TICKETS && Step(s, c).received == c.now
  {
    if c.Reserve? { CandidateIff(c.wire, c.wantId, c.udp); }
  }

  /** A call is granted a ticket exactly for a final header, before seal, decision and cutoff. */
  lemma GrantedIff(s: Exchange, c: Call)
    requires !s.reserved
    ensures Step(s, c).reserved <==> Grants(s, c)
  {
    if Step(s, c).reserved { StepReserved(s, c); }
    if c.Reserve? { CandidateIff(c.wire, c.wantId, c.udp); }
  }

  lemma {:induction false} ReservationOrigin(cutoff: Option<int>, calls: seq<Call>, n: nat) returns (j: nat)
    requires n <= |calls| && Run(cutoff, calls[..n]).reserved
    ensures HeldSince(cutoff, calls, n, j)
  {
    RunSnoc(cutoff, calls, n - 1);
    var before := Run(cutoff, calls[..n - 1]);
    StepReserved(before, calls[n - 1]);
    if before.reserved {
      j := ReservationOrigin(cutoff, calls, n - 1);
    } else {
      j := n - 1;
      NoEndIfOpen(cutoff, calls, j);
    }
  }

  lemma NoEndIfOpen(cutoff: Option<int>, calls: seq<Call>, j: nat)
    requires j <= |calls| && !Run(cutoff, calls[..j]).sealed && !Run(cutoff, calls[..j]).finished
    ensures NoEndBefore(calls, j)
  {
    OpenMeansNoEnd(cutoff, calls[..j]);
    assert forall k :: 0 <= k < j ==> calls[k] == calls[..j][k];
  }

  /** The ID given to the first start, zero before any. */
  function FirstStart(calls: seq<Call>): int {
    if calls == [] then 0
    else if HasStart(calls[..|calls| - 1]) then FirstStart(calls[..|calls| - 1])
    else if calls[|calls| - 1].Start? then calls[|calls| - 1].id
    else 0
  }

  predicate HasStart(calls: seq<Call>) {
    exists i :: 0 <= i < |calls| && calls[i].Start?
  }

  lemma HasStartSnoc(front: seq<Call>, c: Call)
    ensures HasStart(front + [c]) <==> HasStart(front) || c.Start?
  {
    var calls := front + [c];
    assert calls[|front|] == c;
    if HasStart(front) {
      var i :| 0 <= i < |front| && front[i].Start?;
      assert calls[i].Start?;
    }
  }

  lemma StepStarts(s: Exchange, c: Call)
    ensures Step(s, c).started == (s.started || c.Start?)
    ensures Step(s, c).original == if c.Start? && !s.started then c.id else s.original
  {
  }

  lemma {:induction false} OriginalIsFirstStart(cutoff: Option<int>, calls: seq<Call>)
    ensures Run(cutoff, calls).original == FirstStart(calls)
    ensures Run(cutoff, calls).started <==> HasStart(calls)
  {
    if calls == [] {
    } else {
      var front := calls[..|calls| - 1];
      OriginalIsFirstStart(cutoff, front);
      HasStartSnoc(front, calls[|calls| - 1]);
      assert calls == front + [calls[|calls| - 1]];
      StepStarts(Run(cutoff, front), calls[|calls| - 1]);
    }
  }

  lemma {:induction false} DeadlineFixed(cutoff: Option<int>, calls: seq<Call>)
    ensures Run(cutoff, calls).deadline == cutoff
  {
    if calls == [] {
    } else {
      DeadlineFixed(cutoff, calls[..|calls| - 1]);
    }
  }

  /** Call `n` decided the exchange. */
  ghost predicate Decides(cutoff: Option<int>, calls: seq<Call>, n: nat)
    requires n < |calls|
  {
    !Run(cutoff, calls[..n]).finished && Run(cutoff, calls[..n + 1]).finished
  }

  lemma {:induction false} DecidingCall(cutoff: Option<int>, calls: seq<Call>, last: nat) returns (n: nat)
    requires last <= |calls| && Run(cutoff, calls[..last]).finished
    ensures n < last && Decides(cutoff, calls, n)
    ensures Run(cutoff, calls[..n + 1]).result == Run(cutoff, calls[..last]).result
  {
    n := last - 1;
    RunSnoc(cutoff, calls, n);
    InvHolds(cutoff, calls[..n]);
    if Run(cutoff, calls[..n]).finished { n := DecidingCall(cutoff, calls, n); }
  }

  /** The failure that call `c` decides on in state `s`, if any: its own error or that no reply came,
      abandonment, or that the deadline has passed; this also for a frame that comes after the cutoff
      and for one rejected after expiry or cutoff. */
  function FailureBy(s: Exchange, c: Call): Option<Error> {
    var open := !s.sealed && !s.reserved;
    match c
    case Finish(err) => Some(if err.Some? then err.value else NoReply)
    case Abandon => Some(Abandoned)
    case Expire => if s.reserved then None else Some(DeadlineExceeded)
    case Reserve(wire, id, udp, now) =>
      if open && FinalHeader(wire, id, udp) && s.deadline.Some? && now > s.deadline.value then Some(DeadlineExceeded)
      else None
    case ReserveCandidate(now) =>
      if open && s.deadline.Some? && now > s.deadline.value then Some(DeadlineExceeded) else None
    case Reject(ticket, now) =>
      if s.reserved && ticket == s.ticket != 0 && (s.sealed || (s.deadline.Some? && now > s.deadline.value))
      then Some(DeadlineExceeded) else None
    case Start(id) => None
    case Accept(ticket, response) => None
  }

  /** Each call fails an undecided exchange exactly so. */
  lemma FailsIff(s: Exchange, c: Call, err: Error)
    requires !s.finished && s.result == Pending
    ensures Step(s, c).result == Failure(err) <==> FailureBy(s, c) == Some(err)
  {
    if c.Reserve? { CandidateIff(c.wire, c.wantId, c.udp); }
  }

  /** Where any failure comes from. */
  lemma FailureProvenance(cutoff: Option<int>, calls: seq<Call>) returns (n: nat)
    requires Run(cutoff, calls).result.Failure?
    ensures n < |calls| && Decides(cutoff, calls, n)
    ensures FailureBy(Run(cutoff, calls[..n]), calls[n]) == Some(Run(cutoff, calls).result.err)
  {
    assert calls[..|calls|] == calls;
    InvHolds(cutoff, calls);
    n := DecidingCall(cutoff, calls, |calls|);
    RunSnoc(cutoff, calls, n);
    InvHolds(cutoff, calls[..n]);
    FailsIff(Run(cutoff, calls[..n]), calls[n], Run(cutoff, calls).result.err);
  }

  /** Where any success comes from: call `n` accepted the ticket that was held, granted by call
      `j`; that response was observed before any expiry and no later than a cutoff; and it bears
      the ID of the first start. */
  lemma SuccessProvenance(cutoff: Option<int>, calls: seq<Call>) returns (j: nat, n: nat)
    requires Run(cutoff, calls).result.Success?
    ensures j < n < |calls| && calls[n].Accept? && HeldSince(cutoff, calls, n, j)
    ensures calls[n].ticket == Run(cutoff, calls[..n]).ticket
    ensures Run(cutoff, calls).result == Success(calls[n].response.(id := FirstStart(calls[..n])), calls[j].now)
    ensures cutoff.Some? ==> calls[j].now <= cutoff.value
  {
    assert calls[..|calls|] == calls;
    InvHolds(cutoff, calls);
    n := DecidingCall(cutoff, calls, |calls|);
    RunSnoc(cutoff, calls, n);
    InvHolds(cutoff, calls[..n]);
    j := ReservationOrigin(cutoff, calls, n);
    OriginalIsFirstStart(cutoff, calls[..n]);
    DeadlineFixed(cutoff, calls[..n]);
  }

  /** After an expiry, either the decision is made or one reservation is still being judged; and
      judging it, either way, makes the decision. */
  lemma ExpiryDecides(cutoff: Option<int>, calls: seq<Call>, k: nat, c: Call)
    requires k < |calls| && calls[k].Expire?
    ensures var s := Run(cutoff, calls);
            && (s.finished || s.reserved)
            && (s.reserved && s.ticket != 0 && (c.Accept? || c.Reject?) && c.ticket == s.ticket ==> Step(s, c).finished)
            && (c.Reserve? || c.ReserveCandidate? ==> Step(s, c) == s)
  {
    InvHolds(cutoff, calls);
    OpenMeansNoEnd(cutoff, calls);
  }
}
