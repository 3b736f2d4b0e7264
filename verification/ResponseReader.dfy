/** The readers that drive an exchange's decision: no reservation survives a read or a return. */
module ResponseReader {
  import opened Bytes
  import opened Receipt
  import opened Runs

  /** What one read of the connection gives. */
  datatype Read = ReadError | Frame(wire: seq<byte>)

  /** Decoding and validation of a complete frame: foreign, bounded and local. */
  datatype Protocol = Protocol(decode: seq<byte> -> Option<Msg>, tsigFails: seq<byte> -> bool, questionOk: Msg -> bool)

  /** What other goroutines may do to the exchange between two sections of the reader. */
  datatype Interference = GroupExpires | GroupAbandons

  /** A granted ticket can be released, by rejecting or by accepting, exactly if its number has not
      wrapped around to zero, which reads as "no ticket". */
  lemma TicketReleasedIff(s: Exchange, now: int, later: int, response: Msg)
    requires Inv(s) && !s.finished && !s.sealed && !s.reserved && !Late(s, now)
    ensures var s' := ReserveStep(s, now);
            && s'.reserved
            && (!Step(s', Reject(Granted(s, s'), later)).reserved <==> s.ticket + 1 < TICKETS)
            && (Step(s', Accept(Granted(s, s'), response)).result.Success? <==> s.ticket + 1 < TICKETS)
  {
  }

  /** `n` candidates, each reserved and then rejected under the ticket it was granted. */
  function RejectedCandidates(n: nat, now: int): seq<Call> {
    if n == 0 then [] else RejectedCandidates(n - 1, now) + [ReserveCandidate(now), Reject(n, now)]
  }

  lemma {:induction false} RejectedCandidatesRun(n: nat, now: int)
    requires n < TICKETS
    ensures Run(None, RejectedCandidates(n, now)) == New(None).(ticket := n, received := if n == 0 then 0 else now)
  {
    if n == 0 {
    } else {
      RejectedCandidatesRun(n - 1, now);
      FoldTwo(Step, New(None), RejectedCandidates(n - 1, now), ReserveCandidate(now), Reject(n, now));
    }
  }

  /** A run that comes to the last ticket number: the next reservation stays, whatever its holder
      does. */
  lemma WrappedTicketExample(n: nat, now: int, later: int, response: Msg)
    requires n + 1 == TICKETS
    ensures var s := Run(None, RejectedCandidates(n, now));
            var s' := Step(s, ReserveCandidate(later));
            && s'.reserved && Granted(s, s') == 0
            && Step(s', Accept(0, response)) == s' && Step(s', Reject(0, later)) == s'
  {
    RejectedCandidatesRun(n, now);
  }

  method Interfere(state: ExchangeState, acts: seq<Interference>)
    requires Inv(state.View())
    modifies state
    ensures Inv(state.View())
    ensures state.ticket == old(state.ticket) && state.original == old(state.original)
    ensures state.received == old(state.received)
    ensures state.reserved ==> old(state.reserved)
    ensures old(state.reserved) && !state.reserved ==> state.finished
    ensures old(state.finished) ==> state.View() == old(state.View()).(sealed := state.sealed)
    ensures state.result.Success? ==> state.result == old(state.result)
    ensures acts == [] ==> state.View() == old(state.View())
  {
    for i := 0 to |acts|
      invariant Inv(state.View())
      invariant state.ticket == old(state.ticket) && state.original == old(state.original)
      invariant state.received == old(state.received)
      invariant state.reserved ==> old(state.reserved)
      invariant old(state.reserved) && !state.reserved ==> state.finished
      invariant old(state.finished) ==> state.View() == old(state.View()).(sealed := state.sealed)
      invariant state.result.Success? ==> state.result == old(state.result)
      invariant i == 0 ==> state.View() == old(state.View())
    {
      match acts[i] {
        case GroupExpires => state.DoExpire();
        case GroupAbandons => state.DoAbandon();
      }
    }
  }

  /** A frame the reader returns as the response. */
  predicate Answers(p: Protocol, wire: seq<byte>, id: int, checkQuestion: bool) {
    && p.decode(wire).Some? && !p.tsigFails(wire) && p.decode(wire).value.id == id
    && (checkQuestion ==> p.questionOk(p.decode(wire).value))
  }

  /** A frame that may become the decision, and the response it decodes to. */
  ghost predicate Acceptable(p: Protocol, wire: seq<byte>, id: int, udp: bool, checkQuestion: bool, response: Msg) {
    FinalHeader(wire, id, udp) && Answers(p, wire, id, checkQuestion) && p.decode(wire) == Some(response)
  }

  /** The exchange as the reader leaves it between two frames: no reservation is held, except one
      whose number wrapped around to zero and that nobody can release. */
  ghost predicate Settled(s: Exchange) {
    Inv(s) && (s.reserved ==> s.ticket == 0)
  }

  /** Reserving for a complete frame, and whatever happens before it is decoded. */
  method Observe(state: ExchangeState, wire: seq<byte>, id: int, udp: bool, acts: seq<Interference>, now: int)
    returns (ticket: int)
    requires Settled(state.View())
    modifies state
    ensures Inv(state.View()) && state.original == old(state.original)
    ensures state.ticket == old(state.ticket) || state.ticket == (old(state.ticket) + 1) % TICKETS
    ensures state.reserved ==> ticket == state.ticket
    ensures old(state.reserved) ==> state.ticket == old(state.ticket)
    ensures state.reserved && !old(state.reserved) ==>
              FinalHeader(wire, id, udp) && state.ticket == (old(state.ticket) + 1) % TICKETS
    ensures old(state.finished) ==> state.finished
    ensures state.result.Success? || old(state.finished) ==> state.result == old(state.result)
    ensures acts == [] && Grants(old(state.View()), Reserve(wire, id, udp, now)) ==>
              state.reserved && state.received == now
  {
    CandidateIff(wire, id, udp);
    ticket := state.DoReserve(wire, id, udp, now);
    Interfere(state, acts);
  }

  datatype Verdict = Ignored | Returned(ok: bool)

  /** One frame: reserve, decode and judge, with anything happening in between. */
  method JudgeFrame(state: ExchangeState, p: Protocol, wire: seq<byte>, id: int, udp: bool, checkQuestion: bool,
                    acts: seq<Interference>, now: int, later: int)
    returns (verdict: Verdict)
    requires Settled(state.View())
    modifies state
    ensures Settled(state.View()) && state.original == old(state.original)
    ensures state.ticket == old(state.ticket) || state.ticket == (old(state.ticket) + 1) % TICKETS
    ensures !old(state.reserved) && old(state.ticket) + 1 < TICKETS ==> !state.reserved
    ensures old(state.finished) ==> state.result == old(state.result)
    ensures state.result.Success? && !old(state.finished) ==>
              && p.decode(wire).Some? && Acceptable(p, wire, id, udp, checkQuestion, p.decode(wire).value)
              && state.result.response == p.decode(wire).value.(id := old(state.original))
    ensures acts == [] && Answers(p, wire, id, checkQuestion) ==>
              Grants(old(state.View()), Reserve(wire, id, udp, now)) ==>
                var d := Success(p.decode(wire).value.(id := old(state.original)), now);
                state.result == d <==> old(state.ticket) + 1 < TICKETS
    ensures verdict == Returned(true) <==>
              && p.decode(wire).Some? && !p.tsigFails(wire) && p.decode(wire).value.id == id
              && (checkQuestion ==> p.questionOk(p.decode(wire).value))
    ensures verdict.Ignored? <==>
              udp && p.decode(wire).Some? && !p.tsigFails(wire) && p.decode(wire).value.id != id
  {
    var ticket := Observe(state, wire, id, udp, acts, now);
    var decoded := p.decode(wire);
    if decoded.None? || p.tsigFails(wire) {
      state.DoReject(ticket, later);
      return Returned(false);
    }
    var response := decoded.value;
    if response.id != id {
      state.DoReject(ticket, later);
      return if udp then Ignored else Returned(false);
    }
    if checkQuestion && !p.questionOk(response) {
      state.DoReject(ticket, later);
      return Returned(false);
    }
    state.DoAccept(ticket, response);
    verdict := Returned(true);
  }

  /** A frame that decodes but bears another ID; a datagram like that is read past. */
  predicate WrongId(p: Protocol, wire: seq<byte>, id: int) {
    p.decode(wire).Some? && !p.tsigFails(wire) && p.decode(wire).value.id != id
  }

  /** The connection. `seen` records what the exchange looked like at each read made. */
  class Connection {
    const frames: seq<Read>
    var taken: nat
    ghost var seen: seq<Exchange>

    ghost predicate Valid()
      reads this
    {
      |seen| == taken && forall i :: 0 <= i < taken ==> Settled(seen[i])
    }

    constructor (frames: seq<Read>)
      ensures Valid() && this.frames == frames && taken == 0
    {
      this.frames, taken, seen := frames, 0, [];
    }

    /** What read number `i` gives; past the last frame the peer is gone. */
    function Nth(i: nat): Read {
      if i < |frames| then frames[i] else ReadError
    }

    /** A read blocks, so nothing may be reserved that could be released. */
    method Next(state: ExchangeState) returns (r: Read)
      requires Valid() && Settled(state.View())
      modifies this
      ensures Valid() && taken == old(taken) + 1 && r == Nth(old(taken)) && seen == old(seen) + [state.View()]
    {
      r := Nth(taken);
      taken := taken + 1;
      seen := seen + [state.View()];
    }
  }

  /** Every read from `i` up to `j` gave a datagram of another ID, which is read past. */
  ghost predicate ReadPast(conn: Connection, i: nat, j: nat, p: Protocol, id: int, udp: bool) {
    forall k :: i <= k < j ==> conn.Nth(k).Frame? && udp && WrongId(p, conn.Nth(k).wire, id)
  }

  /** The frame of read number `i` is acceptable and is the response that was decided. */
  ghost predicate DecidedBy(p: Protocol, r: Read, id: int, udp: bool, checkQuestion: bool, original: int, d: Decision) {
    && d.Success? && r.Frame? && p.decode(r.wire).Some?
    && Acceptable(p, r.wire, id, udp, checkQuestion, p.decode(r.wire).value)
    && d.response == p.decode(r.wire).value.(id := original)
  }

  /** The decision came from one of the reads from `i` up to `j`. */
  ghost predicate DecidedAmong(conn: Connection, i: nat, j: nat, p: Protocol, id: int, udp: bool, checkQuestion: bool,
                               original: int, d: Decision)
  {
    exists k :: i <= k < j && DecidedBy(p, conn.Nth(k), id, udp, checkQuestion, original, d)
  }

  /** No read from `i` on was made while a reservation was held. */
  ghost predicate NoneHeldFrom(seen: seq<Exchange>, i: nat) {
    forall k :: i <= k < |seen| ==> !seen[k].reserved
  }

  /** One round of the loop: a read, and the judgement of the frame it gave. */
  method ReadRound(conn: Connection, state: ExchangeState, p: Protocol, id: int, udp: bool, checkQuestion: bool,
                   before: seq<Interference>, between: seq<Interference>, now: int, later: int)
    returns (verdict: Verdict)
    requires conn.Valid() && Settled(state.View())
    modifies conn, state
    ensures conn.Valid() && Settled(state.View()) && state.original == old(state.original)
    ensures conn.taken == old(conn.taken) + 1 && conn.seen[..old(conn.taken)] == old(conn.seen)
    ensures state.ticket == old(state.ticket) || state.ticket == (old(state.ticket) + 1) % TICKETS
    ensures !old(state.reserved) ==> !conn.seen[old(conn.taken)].reserved
    ensures !old(state.reserved) && old(state.ticket) + 1 < TICKETS ==> !state.reserved
    ensures old(state.finished) ==> state.result == old(state.result)
    ensures state.result.Success? && !old(state.finished) ==>
              DecidedBy(p, conn.Nth(old(conn.taken)), id, udp, checkQuestion, old(state.original), state.result)
    ensures var r := conn.Nth(old(conn.taken));
            && (verdict == Returned(true) <==> r.Frame? && Answers(p, r.wire, id, checkQuestion))
            && (verdict.Ignored? <==> r.Frame? && udp && WrongId(p, r.wire, id))
  {
    Interfere(state, before);
    var r := conn.Next(state);
    if r.ReadError? { return Returned(false); }
    verdict := JudgeFrame(state, p, r.wire, id, udp, checkQuestion, between, now, later);
  }

  /** The read loop. Every reservation is accepted or rejected before the next read and before the
      return, so an expiry is decided by then; only an acceptable frame that was read can become the
      decision; and the last frame read alone determines what is returned. */
  method ReadDNSResponse(conn: Connection, state: ExchangeState, p: Protocol, id: int, udp: bool, checkQuestion: bool,
                         acts: nat -> seq<Interference>, clock: nat -> int)
    returns (ok: bool)
    requires conn.Valid() && Settled(state.View())
    modifies conn, state
    ensures conn.Valid() && Settled(state.View())
    ensures conn.taken > old(conn.taken) && conn.seen[..old(conn.taken)] == old(conn.seen)
    ensures !old(state.reserved) && old(state.ticket) + (conn.taken - old(conn.taken)) < TICKETS ==>
              !state.reserved && NoneHeldFrom(conn.seen, old(conn.taken))
    ensures old(state.finished) ==> state.result == old(state.result)
    ensures state.result.Success? && !old(state.finished) ==>
              DecidedAmong(conn, old(conn.taken), conn.taken, p, id, udp, checkQuestion, old(state.original),
                           state.result)
    ensures var last := conn.Nth(conn.taken - 1);
            ok <==> last.Frame? && Answers(p, last.wire, id, checkQuestion)
    ensures ReadPast(conn, old(conn.taken), conn.taken - 1, p, id, udp)
  {
    ghost var first, ticket := conn.taken, state.ticket;
    while true
      invariant conn.Valid() && Settled(state.View()) && state.original == old(state.original)
      invariant conn.taken >= first && conn.seen[..first] == old(conn.seen)
      invariant !old(state.reserved) && ticket + (conn.taken - first) < TICKETS ==>
                  && !state.reserved && ticket <= state.ticket <= ticket + (conn.taken - first)
                  && NoneHeldFrom(conn.seen, first)
      invariant old(state.finished) ==> state.result == old(state.result)
      invariant state.result.Success? && !old(state.finished) ==>
                  DecidedAmong(conn, first, conn.taken, p, id, udp, checkQuestion, old(state.original), state.result)
      invariant ReadPast(conn, first, conn.taken, p, id, udp)
      decreases if conn.taken <= |conn.frames| then |conn.frames| - conn.taken else 0
    {
      var n := conn.taken;
      ghost var was := state.View();
      var verdict := ReadRound(conn, state, p, id, udp, checkQuestion,
                               acts(2 * n), acts(2 * n + 1), clock(2 * n), clock(2 * n + 1));
      assert state.result.Success? && !was.finished ==>
             DecidedAmong(conn, first, conn.taken, p, id, udp, checkQuestion, old(state.original), state.result);
      if verdict.Returned? { return verdict.ok; }
    }
  }

  /** A decrypted response, as far as the encrypted transport judges it. */
  datatype Decoded = Decoded(msg: Msg, isResponse: bool, truncated: bool, questionOk: bool)

  /** A response to the request of this ID. */
  predicate Sound(response: Option<Decoded>, id: int) {
    response.Some? && response.value.isResponse && response.value.msg.id == id && response.value.questionOk
  }

  /** The adapter between the encrypted client and the exchange: it holds a ticket, no decision. */
  class DnsCryptReceipt {
    const state: ExchangeState
    const requestId: int
    var ticket: int
    var udp: bool

    constructor (state: ExchangeState, requestId: int)
      ensures this.state == state && this.requestId == requestId && ticket == 0 && udp
    {
      this.state, this.requestId, ticket, udp := state, requestId, 0, true;
    }

    method Received(now: int)
      requires Settled(state.View())
      modifies this`ticket, state
      ensures state.View() == ReserveStep(old(state.View()), now)
      ensures ticket == if state.reserved then state.ticket else 0
    {
      ticket := state.DoReserveCandidate(now);
    }

    /** Fit to decide: a truncated datagram is not. */
    predicate Fits(response: Option<Decoded>)
      reads this
    {
      Sound(response, requestId) && !(udp && response.value.truncated)
    }

    /** Always follows `Received`, whatever the decryption gave: nothing stays reserved, and exactly a
        fitting response is accepted, unless the ticket number wrapped around to zero. */
    method DoDecoded(response: Option<Decoded>, now: int) returns (ok: bool)
      requires Inv(state.View()) && (state.reserved ==> ticket == state.ticket)
      modifies this`ticket, state
      ensures ok <==>
                && response.Some? && response.value.isResponse && response.value.msg.id == requestId
                && response.value.questionOk
      ensures state.View() == Step(old(state.View()), if Fits(response) then Accept(old(ticket), response.value.msg)
                                                      else Reject(old(ticket), now))
      ensures Settled(state.View()) && ticket == 0 && (old(ticket) != 0 ==> !state.reserved)
      ensures state.result.Success? && !old(state.finished) ==>
                && Fits(response)
                && state.result == Success(response.value.msg.(id := old(state.original)), old(state.received))
      ensures old(state.reserved) && Fits(response) ==> (state.result.Success? <==> old(ticket) != 0)
    {
      if response.None? || !response.value.isResponse {
        ok := false;
      } else if response.value.msg.id != requestId {
        ok := false;
      } else {
        ok := response.value.questionOk;
      }
      if !ok || (udp && response.value.truncated) {
        state.DoReject(ticket, now);
      } else {
        state.DoAccept(ticket, response.value.msg);
      }
      ticket := 0;
    }
  }

  /** One attempt over one transport: whether the query goes out, how its response is decrypted, what
      happens to the exchange before and after the read, and the times of reserving and rejecting. */
  datatype Attempt = Attempt(
    sent: bool,
    decrypt: seq<byte> -> Option<Decoded>,
    before: seq<Interference>,
    between: seq<Interference>,
    now: int,
    later: int)

  /** What the attempt's one read gives, if it answers the request. */
  function ReplyTo(a: Attempt, r: Read, id: int): Option<Decoded> {
    if a.sent && r.Frame? && Sound(a.decrypt(r.wire), id) then a.decrypt(r.wire) else None
  }

  /** The reply of both attempts: a truncated datagram gives way to the stream. */
  function ReplyOf(first: Option<Decoded>, second: Option<Decoded>): Option<Decoded> {
    if first.Some? && first.value.truncated then second else first
  }

  /** An exchange that can still be decided, by a holder that has yet to reserve. */
  predicate Open(s: Exchange) { !s.finished && !s.sealed && !s.reserved }

  /** Nothing else happens to the exchange, and the attempt is not late. */
  predicate Undisturbed(s: Exchange, a: Attempt) {
    Open(s) && a.before == [] && a.between == [] && !Late(s, a.now) && !Late(s, a.later) && s.ticket + 1 < TICKETS
  }

  /** A response was read: the two calls of the adapter around its decryption. */
  method JudgeDecrypted(receipt: DnsCryptReceipt, response: Option<Decoded>, a: Attempt) returns (ok: bool)
    requires Settled(receipt.state.View())
    modifies receipt`ticket, receipt.state
    ensures Settled(receipt.state.View()) && receipt.state.original == old(receipt.state.original)
    ensures receipt.state.ticket == old(receipt.state.ticket) ||
            receipt.state.ticket == (old(receipt.state.ticket) + 1) % TICKETS
    ensures !old(receipt.state.reserved) && old(receipt.state.ticket) + 1 < TICKETS ==> !receipt.state.reserved
    ensures ok <==> Sound(response, receipt.requestId)
    ensures old(receipt.state.finished) ==> receipt.state.result == old(receipt.state.result)
    ensures receipt.state.result.Success? && !old(receipt.state.finished) ==>
              && receipt.Fits(response)
              && receipt.state.result.response == response.value.msg.(id := old(receipt.state.original))
    ensures Undisturbed(old(receipt.state.View()), a) ==>
              if receipt.Fits(response)
              then receipt.state.result == Success(response.value.msg.(id := old(receipt.state.original)), a.now)
              else Open(receipt.state.View())
  {
    receipt.Received(a.now);
    Interfere(receipt.state, a.between);
    ok := receipt.DoDecoded(response, a.later);
  }

  /** Query, read and judgement. */
  method ExchangeOnce(conn: Connection, receipt: DnsCryptReceipt, a: Attempt) returns (resp: Option<Decoded>)
    requires conn.Valid() && Settled(receipt.state.View())
    modifies conn, receipt`ticket, receipt.state
    ensures conn.Valid() && Settled(receipt.state.View()) && receipt.state.original == old(receipt.state.original)
    ensures receipt.state.ticket == old(receipt.state.ticket) ||
            receipt.state.ticket == (old(receipt.state.ticket) + 1) % TICKETS
    ensures conn.taken >= old(conn.taken) && conn.seen[..old(conn.taken)] == old(conn.seen)
    ensures !old(receipt.state.reserved) ==> NoneHeldFrom(conn.seen, old(conn.taken))
    ensures !old(receipt.state.reserved) && old(receipt.state.ticket) + 1 < TICKETS ==> !receipt.state.reserved
    ensures resp == ReplyTo(a, conn.Nth(old(conn.taken)), receipt.requestId)
    ensures old(receipt.state.finished) ==> receipt.state.result == old(receipt.state.result)
    ensures receipt.state.result.Success? && !old(receipt.state.finished) ==>
              && receipt.Fits(resp)
              && receipt.state.result.response == resp.value.msg.(id := old(receipt.state.original))
    ensures Undisturbed(old(receipt.state.View()), a) ==>
              if receipt.Fits(resp)
              then receipt.state.result == Success(resp.value.msg.(id := old(receipt.state.original)), a.now)
              else Open(receipt.state.View())
  {
    Interfere(receipt.state, a.before);
    if !a.sent { return None; }
    var r := conn.Next(receipt.state);
    if r.ReadError? { return None; }
    var response := a.decrypt(r.wire);
    var ok := JudgeDecrypted(receipt, response, a);
    resp := if ok then response else None;
  }

  /** Over datagrams and, if the reply is truncated, over a stream. */
  method ExchangeBoth(udp: Connection, tcp: Connection, receipt: DnsCryptReceipt, first: Attempt, second: Attempt)
    returns (resp: Option<Decoded>)
    requires udp.Valid() && tcp.Valid() && udp != tcp && Settled(receipt.state.View()) && receipt.udp
    modifies udp, tcp, receipt, receipt.state
    ensures udp.Valid() && tcp.Valid() && udp.taken >= old(udp.taken) && tcp.taken >= old(tcp.taken)
    ensures Inv(receipt.state.View()) && receipt.state.original == old(receipt.state.original)
    ensures !old(receipt.state.reserved) && old(receipt.state.ticket) + 2 < TICKETS ==>
              NoneHeldFrom(udp.seen, old(udp.taken)) && NoneHeldFrom(tcp.seen, old(tcp.taken))
    ensures resp == ReplyOf(ReplyTo(first, udp.Nth(old(udp.taken)), receipt.requestId),
                            ReplyTo(second, tcp.Nth(old(tcp.taken)), receipt.requestId))
    ensures old(receipt.state.finished) ==> receipt.state.result == old(receipt.state.result)
    ensures receipt.state.result.Success? && !old(receipt.state.finished) ==>
              resp.Some? && receipt.state.result.response == resp.value.msg.(id := old(receipt.state.original))
    ensures old(receipt.state.ticket) + 2 < TICKETS &&
            Undisturbed(old(receipt.state.View()), first) && Undisturbed(old(receipt.state.View()), second) ==>
              if resp.Some? then receipt.state.result.Success? else Open(receipt.state.View())
  {
    resp := ExchangeOnce(udp, receipt, first);
    if resp.Some? && resp.value.truncated {
      receipt.udp := false;
      resp := ExchangeOnce(tcp, receipt, second);
    }
  }

  /** The exchange once started: it always ends decided. */
  method ExchangeStarted(state: ExchangeState, id: int, certified: bool, udp: Connection, tcp: Connection,
                         first: Attempt, second: Attempt, reason: Error)
    returns (resp: Option<Decoded>)
    requires Settled(state.View()) && udp.Valid() && tcp.Valid() && udp != tcp
    modifies state, udp, tcp
    ensures udp.Valid() && tcp.Valid() && udp.taken >= old(udp.taken) && tcp.taken >= old(tcp.taken)
    ensures !old(state.reserved) && old(state.ticket) + 2 < TICKETS ==>
              NoneHeldFrom(udp.seen, old(udp.taken)) && NoneHeldFrom(tcp.seen, old(tcp.taken))
    ensures Inv(state.View()) && state.finished
    ensures resp == if certified then ReplyOf(ReplyTo(first, udp.Nth(old(udp.taken)), id),
                                              ReplyTo(second, tcp.Nth(old(tcp.taken)), id))
                    else None
    ensures old(state.finished) ==> state.result == old(state.result)
    ensures state.result.Success? && !old(state.finished) ==>
              resp.Some? && state.result.response == resp.value.msg.(id := old(state.original))
    ensures old(state.ticket) + 2 < TICKETS &&
            Undisturbed(old(state.View()), first) && Undisturbed(old(state.View()), second) ==>
              if resp.Some? then state.result.Success? else state.result == Failure(reason)
  {
    resp := None;
    if certified {
      var receipt := new DnsCryptReceipt(state, id);
      resp := ExchangeBoth(udp, tcp, receipt, first, second);
    }
    state.DoFinish(if resp.Some? then None else Some(reason));
  }

  /** The encrypted exchange, with its fallback from datagrams to a stream. Every read is made while no
      reservation is held, and whatever happens meanwhile, an exchange it started is decided when it
      returns: by the response it returns or by a failure. Left alone, it decides on the response. */
  method ExchangeDnsCrypt(state: ExchangeState, id: int, certified: bool, udp: Connection, tcp: Connection,
                          first: Attempt, second: Attempt, reason: Error)
    returns (resp: Option<Decoded>)
    requires Settled(state.View()) && udp.Valid() && tcp.Valid() && udp != tcp
    modifies state, udp, tcp
    ensures udp.Valid() && tcp.Valid() && udp.taken >= old(udp.taken) && tcp.taken >= old(tcp.taken)
    ensures !old(state.reserved) && old(state.ticket) + 2 < TICKETS ==>
              NoneHeldFrom(udp.seen, old(udp.taken)) && NoneHeldFrom(tcp.seen, old(tcp.taken))
    ensures Inv(state.View())
    ensures if old(state.started) then resp.None? && state.View() == old(state.View()) else state.finished
    ensures !old(state.started) ==>
              resp == if certified then ReplyOf(ReplyTo(first, udp.Nth(old(udp.taken)), id),
                                                ReplyTo(second, tcp.Nth(old(tcp.taken)), id))
                      else None
    ensures old(state.finished) ==> state.result == old(state.result)
    ensures state.result.Success? && !old(state.finished) ==> resp.Some? && state.result.response == resp.value.msg
    ensures !old(state.started) && old(state.ticket) + 2 < TICKETS &&
            Undisturbed(old(state.View()), first) && Undisturbed(old(state.View()), second) ==>
              if resp.Some? then state.result.Success? else state.result == Failure(reason)
  {
    var ok := state.DoStart(id);
    if !ok { return None; }
    resp := ExchangeStarted(state, id, certified, udp, tcp, first, second, reason);
  }
}
