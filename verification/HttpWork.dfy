/** The connection work of one DNS-over-HTTPS exchange: admission, sealing and joining. */
module HttpWork {
  import opened Runs

  datatype Kind = Tls | Quic

  /** One admitted piece of work. A dial is checked against its context, dials, and may leave its
      reference to a goroutine that waits for the handshake; a probe only runs. */
  datatype Phase = Admitted(kind: Kind) | Dialing(kind: Kind) | Shaking | Probing | Over

  /** The exchange's own goroutine: before `join`, waiting in it, and past it. */
  datatype Owner = Running | Joining | Joined

  /** `count` is the wait group's counter, `dones` counts the calls of `Done` for each item. */
  datatype Work = Work(owner: Owner, sealed: bool, count: int, items: map<nat, Phase>, dones: multiset<nat>)

  const INITIAL := Work(Running, false, 0, map[], multiset{})

  datatype Event =
    | Begin(i: nat, kind: Kind)
    | CheckContext(i: nat, err: bool)
    | DialEnds(i: nat, ok: bool, settled: bool)
    | HandshakeEnds(i: nat)
    | StartProbes(i: nat, j: nat)
    | ProbeEnds(i: nat)
    | Seal
    | WaitReturns

  predicate At(w: Work, i: nat, ph: Phase) { i in w.items && w.items[i] == ph }

  function Move(w: Work, i: nat, ph: Phase): Work {
    w.(items := w.items[i := ph])
  }

  /** One more reference, held by a new item. */
  function Admit(w: Work, i: nat, ph: Phase): Work {
    Move(w, i, ph).(count := w.count + 1)
  }

  /** `finish`: one call of `Done`. */
  function Finish(w: Work, i: nat): Work {
    Move(w, i, Over).(count := w.count - 1, dones := w.dones + multiset{i})
  }

  /** A step that is not enabled changes nothing. */
  function Step(w: Work, e: Event): Work {
    match e
    case Begin(i, kind) => if i in w.items || w.sealed then w else Admit(w, i, Admitted(kind))
    case CheckContext(i, err) =>
      if !(i in w.items && w.items[i].Admitted?) then w
      else if err then Finish(w, i)
      else Move(w, i, Dialing(w.items[i].kind))
    case DialEnds(i, ok, settled) =>
      if !(i in w.items && w.items[i].Dialing?) then w
      else if w.items[i].kind.Quic? && ok && !settled then Move(w, i, Shaking)
      else Finish(w, i)
    case HandshakeEnds(i) => if At(w, i, Shaking) then Finish(w, i) else w
    case StartProbes(i, j) =>
      if !w.owner.Running? || i in w.items || j in w.items || i == j then w
      else Admit(Admit(w, i, Probing), j, Probing)
    case ProbeEnds(i) => if At(w, i, Probing) then Finish(w, i) else w
    case Seal => if w.owner.Running? then w.(owner := Joining, sealed := true) else w
    case WaitReturns => if w.owner.Joining? && w.count == 0 then w.(owner := Joined) else w
  }

  function Run(events: seq<Event>): Work {
    Fold(Step, INITIAL, events)
  }

  /** The object with its counter and its mutex; `work` records the items it counts. */
  class WorkGroup {
    var count: int
    var isSealed: bool
    ghost var work: Work

    ghost predicate Valid()
      reads this
    {
      work.count == count && work.sealed == isSealed && Inv(work)
    }

    constructor ()
      ensures Valid() && work == INITIAL
    {
      count, isSealed, work := 0, false, INITIAL;
      new;
      assert Outstanding(INITIAL) == {};
    }

    /** `begin`, for a dial not seen before. */
    method BeginDial(ghost i: nat, ghost kind: Kind) returns (ok: bool)
      requires Valid() && i !in work.items
      modifies this
      ensures Valid() && work == Step(old(work), Begin(i, kind)) && (ok <==> i in work.items)
      ensures ok <==> !old(isSealed)
    {
      StepKeepsInv(work, Begin(i, kind));
      work := Step(work, Begin(i, kind));
      if isSealed { return false; }
      count := count + 1;
      return true;
    }

    /** Both references are taken before either probe starts. */
    method AddProbes(ghost i: nat, ghost j: nat)
      requires Valid() && work.owner.Running? && i !in work.items && j !in work.items && i != j
      modifies this
      ensures Valid() && work == Step(old(work), StartProbes(i, j))
    {
      StepKeepsInv(work, StartProbes(i, j));
      work := Step(work, StartProbes(i, j));
      count := count + 2;
    }

    /** The end of an outstanding item, by whatever step ends it. */
    method Done(ghost i: nat, ghost e: Event)
      requires Valid() && i in Outstanding(work) && Step(work, e) == Finish(work, i)
      modifies this
      ensures Valid() && work == Step(old(work), e) && i !in Outstanding(work) && count >= 0
    {
      StepKeepsInv(work, e);
      work := Step(work, e);
      count := count - 1;
    }

    /** `join` up to the wait. */
    method SealAdmission()
      requires Valid() && work.owner.Running?
      modifies this
      ensures Valid() && work == Step(old(work), Seal)
    {
      StepKeepsInv(work, Seal);
      work := Step(work, Seal);
      isSealed := true;
    }
  }

  /** The items that still hold a reference. */
  function Outstanding(w: Work): set<nat> {
    set i | i in w.items && !w.items[i].Over?
  }

  ghost predicate FinishedOnce(w: Work) {
    forall i: nat :: w.dones[i] == if At(w, i, Over) then 1 else 0
  }

  ghost predicate Inv(w: Work) {
    && w.count == |Outstanding(w)| && FinishedOnce(w)
    && (w.sealed <==> !w.owner.Running?)
    && (w.owner.Joined? ==> w.count == 0)
  }

  lemma SameDones(w: Work, w': Work)
    requires FinishedOnce(w) && w'.dones == w.dones
    requires forall k: nat :: At(w', k, Over) <==> At(w, k, Over)
    ensures FinishedOnce(w')
  {
    forall k: nat ensures w'.dones[k] == if At(w', k, Over) then 1 else 0 {
      assert w.dones[k] == if At(w, k, Over) then 1 else 0;
    }
  }

  lemma Admits(w: Work, i: nat, ph: Phase)
    requires Inv(w) && i !in w.items && !ph.Over? && w.owner.Running?
    ensures Inv(Admit(w, i, ph))
  {
    var w' := Admit(w, i, ph);
    assert Outstanding(w') == Outstanding(w) + {i};
    SameDones(w, w');
  }

  lemma Advances(w: Work, i: nat, ph: Phase)
    requires Inv(w) && i in w.items && !w.items[i].Over? && !ph.Over?
    ensures Inv(Move(w, i, ph))
  {
    var w' := Move(w, i, ph);
    assert Outstanding(w') == Outstanding(w);
    SameDones(w, w');
  }

  lemma Finishes(w: Work, i: nat)
    requires Inv(w) && i in w.items && !w.items[i].Over?
    ensures Inv(Finish(w, i)) && Finish(w, i).count >= 0
  {
    var w' := Finish(w, i);
    assert Outstanding(w') == Outstanding(w) - {i};
    assert i in Outstanding(w);
    forall k: nat ensures w'.dones[k] == if At(w', k, Over) then 1 else 0 {
      assert w.dones[k] == if At(w, k, Over) then 1 else 0;
    }
  }

  lemma StepKeepsInv(w: Work, e: Event)
    requires Inv(w)
    ensures Inv(Step(w, e))
  {
    var w' := Step(w, e);
    if w'.items == w.items {
      assert Outstanding(w') == Outstanding(w);
      SameDones(w, w');
    } else if w'.count == w.count - 1 {
      Finishes(w, e.i);
    } else {
      match e {
        case Begin(i, kind) => Admits(w, i, Admitted(kind));
        case StartProbes(i, j) => Admits(w, i, Probing); Admits(Admit(w, i, Probing), j, Probing);
        case CheckContext(i, _) => Advances(w, i, Dialing(w.items[i].kind));
        case DialEnds(i, _, _) => Advances(w, i, Shaking);
      }
    }
  }

  lemma {:induction false} RunKeepsInv(events: seq<Event>)
    ensures Inv(Run(events))
  {
    if events == [] {
    } else {
      RunKeepsInv(events[..|events| - 1]);
      StepKeepsInv(Run(events[..|events| - 1]), events[|events| - 1]);
    }
  }

  /** The counter is the number of unfinished items, so it is never negative, and every item
      calls `Done` once when it is over and not before. */
  lemma CountIsOutstanding(events: seq<Event>, i: nat)
    ensures var w := Run(events);
            w.count == |Outstanding(w)| >= 0 && w.dones[i] == if At(w, i, Over) then 1 else 0
  {
    RunKeepsInv(events);
  }

  lemma SealedStays(w: Work, e: Event)
    requires Inv(w) && w.sealed
    ensures var w' := Step(w, e); w'.sealed && w'.items.Keys == w.items.Keys && Outstanding(w') <= Outstanding(w)
    ensures w.owner.Joined? ==> Step(w, e).owner.Joined?
  {
  }

  /** Once sealed, no work is admitted any more and finished work stays finished; once `join`
      has returned, the counter is zero for good. */
  lemma {:induction false} NothingAfterSeal(events: seq<Event>, more: seq<Event>)
    requires Run(events).sealed
    ensures var w, w' := Run(events), Run(events + more);
            && w'.sealed && w'.items.Keys == w.items.Keys && Outstanding(w') <= Outstanding(w)
            && (w.owner.Joined? ==> w'.owner.Joined? && w'.count == 0 && Outstanding(w') == {})
  {
    RunKeepsInv(events);
    if more == [] {
      assert events + more == events;
    } else {
      var front, e := more[..|more| - 1], more[|more| - 1];
      assert events + more == events + front + [e];
      NothingAfterSeal(events, front);
      RunKeepsInv(events + front);
      FoldSnoc(Step, INITIAL, events + front, e);
      SealedStays(Run(events + front), e);
      RunKeepsInv(events + more);
    }
  }

  /** Event `e` can end item `i`. */
  predicate Ends(e: Event, i: nat) {
    || e == CheckContext(i, true) || (e.DialEnds? && e.i == i) || e == HandshakeEnds(i) || e == ProbeEnds(i)
  }

  lemma HeldStep(w: Work, e: Event, i: nat)
    requires i in Outstanding(w) && !Ends(e, i)
    ensures i in Outstanding(Step(w, e))
  {
  }

  /** Admitted work keeps its reference until it ends, and `join` does not return before. */
  lemma {:induction false} HeldUntilEnd(events: seq<Event>, i: nat, more: seq<Event>)
    requires i in Outstanding(Run(events)) && forall k :: 0 <= k < |more| ==> !Ends(more[k], i)
    ensures i in Outstanding(Run(events + more)) && !Run(events + more).owner.Joined?
  {
    if more == [] {
      assert events + more == events;
    } else {
      var front, e := more[..|more| - 1], more[|more| - 1];
      assert events + more == events + front + [e];
      HeldUntilEnd(events, i, front);
      FoldSnoc(Step, INITIAL, events + front, e);
      HeldStep(Run(events + front), e, i);
    }
    RunKeepsInv(events + more);
  }

  /** Until it is sealed, a dial is admitted, and before `join` both probes are, each with its reference. */
  lemma Admission(events: seq<Event>, i: nat, j: nat, kind: Kind)
    requires i !in Run(events).items && j !in Run(events).items && i != j && Run(events).owner.Running?
    ensures At(Run(events + [Begin(i, kind)]), i, Admitted(kind)) && i in Outstanding(Run(events + [Begin(i, kind)]))
    ensures var w := Run(events + [StartProbes(i, j)]);
            At(w, i, Probing) && At(w, j, Probing) && {i, j} <= Outstanding(w) && w.count == Run(events).count + 2
  {
    RunKeepsInv(events);
    FoldSnoc(Step, INITIAL, events, Begin(i, kind));
    FoldSnoc(Step, INITIAL, events, StartProbes(i, j));
  }

  /** A QUIC dial that succeeds before its handshake is settled keeps its reference until the handshake
      ends, whatever else happens, and `join` does not return before; any other dial is over at once. */
  lemma DialHoldsUntilHandshake(events: seq<Event>, i: nat, kind: Kind, ok: bool, settled: bool, more: seq<Event>)
    requires At(Run(events), i, Dialing(kind)) && HandshakeEnds(i) !in more
    ensures var w := Run(events + [DialEnds(i, ok, settled)] + more);
            if kind == Quic && ok && !settled
            then At(w, i, Shaking) && i in Outstanding(w) && !w.owner.Joined? && At(Step(w, HandshakeEnds(i)), i, Over)
            else At(w, i, Over)
  {
    var e := DialEnds(i, ok, settled);
    FoldSnoc(Step, INITIAL, events, e);
    PhaseStays(events + [e], i, more);
    RunKeepsInv(events + [e] + more);
  }

  lemma PhaseStaysStep(w: Work, e: Event, i: nat)
    requires (At(w, i, Shaking) || At(w, i, Over)) && e != HandshakeEnds(i)
    ensures At(Step(w, e), i, w.items[i])
  {
  }

  lemma {:induction false} PhaseStays(events: seq<Event>, i: nat, more: seq<Event>)
    requires HandshakeEnds(i) !in more && (At(Run(events), i, Shaking) || At(Run(events), i, Over))
    ensures i in Run(events + more).items && Run(events + more).items[i] == Run(events).items[i]
  {
    if more == [] {
      assert events + more == events;
    } else {
      var front, e := more[..|more| - 1], more[|more| - 1];
      assert more == front + [e] && events + more == events + front + [e];
      PhaseStays(events, i, front);
      FoldSnoc(Step, INITIAL, events + front, e);
      PhaseStaysStep(Run(events + front), e, i);
    }
  }

  /** What is left of item `i`, once its dial and its handshake have ended. */
  function WindDown(i: nat): seq<Event> {
    [CheckContext(i, true), DialEnds(i, false, true), HandshakeEnds(i)] + [ProbeEnds(i)]
  }

  lemma ItemEnds(w: Work, i: nat)
    requires Inv(w) && w.owner.Joining? && i in Outstanding(w)
    ensures var w' := Fold(Step, w, WindDown(i));
            Inv(w') && w'.owner.Joining? && Outstanding(w') == Outstanding(w) - {i}
  {
    FoldThreeOf(Step, w, CheckContext(i, true), DialEnds(i, false, true), HandshakeEnds(i));
    FoldSnoc(Step, w, [CheckContext(i, true), DialEnds(i, false, true), HandshakeEnds(i)], ProbeEnds(i));
    var w' := Fold(Step, w, WindDown(i));
    assert w' == Finish(w, i);
    Finishes(w, i);
  }

  /** `join` can return from every reachable state in which it waits. */
  lemma {:induction false} AllEnd(w: Work) returns (more: seq<Event>)
    requires Inv(w) && w.owner.Joining?
    ensures Fold(Step, w, more).owner.Joined?
    decreases |Outstanding(w)|
  {
    if Outstanding(w) == {} {
      more := [WaitReturns];
      FoldOneOf(Step, w, WaitReturns);
    } else {
      var i :| i in Outstanding(w);
      ItemEnds(w, i);
      var rest := AllEnd(Fold(Step, w, WindDown(i)));
      more := WindDown(i) + rest;
      FoldConcat(Step, w, WindDown(i), rest);
    }
  }

  lemma JoinCanReturn(events: seq<Event>) returns (more: seq<Event>)
    requires Run(events).owner.Joining?
    ensures Run(events + more).owner.Joined?
  {
    RunKeepsInv(events);
    more := AllEnd(Run(events));
    FoldConcat(Step, INITIAL, events, more);
  }
}
