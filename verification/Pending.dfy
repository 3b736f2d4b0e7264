/** Single-flight merging of identical requests, over every interleaving of leaders and followers. */
module Pending {
  import opened Bytes
  import opened Runs

  type Key = seq<byte>

  /** A response: its ID, and its record sections. */
  datatype Response = Response(id: int, sections: seq<byte>)

  /** What a leader ends with: error, upstream, statistics and response. */
  datatype Outcome = Outcome(err: Option<string>, upstream: string, stats: string, res: Option<Response>)

  datatype Clone = Clone(upstream: string, stats: string, res: Option<Response>)

  /** A pending request object: the goroutine that created it, the fields it carries, and how
      often its channel was closed. */
  datatype PendingRequest = PendingRequest(owner: nat, resolveErr: Option<string>, clone: Option<Clone>, closes: nat)

  function CloneOf(out: Outcome): Clone { Clone(out.upstream, out.stats, out.res) }

  /** The shared map, and all request objects ever created. */
  datatype Shared = Shared(storage: map<Key, nat>, reqs: seq<PendingRequest>)

  /** Go's `LoadOrStore` of a new object for `key`. */
  function LoadOrStore(sh: Shared, key: Key, owner: nat): Shared {
    var r := |sh.reqs|;
    Shared(
      if key in sh.storage then sh.storage else sh.storage[key := r],
      sh.reqs + [PendingRequest(owner, None, None, 0)])
  }

  function WriteErr(sh: Shared, r: nat, out: Outcome): Shared
    requires r < |sh.reqs|
  {
    sh.(reqs := sh.reqs[r := sh.reqs[r].(resolveErr := out.err)])
  }

  function WriteClone(sh: Shared, r: nat, out: Outcome): Shared
    requires r < |sh.reqs|
  {
    sh.(reqs := sh.reqs[r := sh.reqs[r].(clone := Some(CloneOf(out)))])
  }

  function Delete(sh: Shared, key: Key): Shared {
    sh.(storage := sh.storage - {key})
  }

  function Close(sh: Shared, r: nat): Shared
    requires r < |sh.reqs|
  {
    sh.(reqs := sh.reqs[r := sh.reqs[r].(closes := sh.reqs[r].closes + 1)])
  }

  /** The object itself; `done` in one piece, as its goroutine runs it. */
  class DefaultPendingRequests {
    var storage: map<Key, nat>
    var reqs: seq<PendingRequest>

    function View(): Shared
      reads this
    {
      Shared(storage, reqs)
    }

    constructor ()
      ensures Valid() && View() == Shared(map[], [])
    {
      storage, reqs := map[], [];
    }

    /** The objects in the map exist, differ from key to key, and their channels are open. */
    ghost predicate Valid()
      reads this
    {
      && (forall k :: k in storage ==> storage[k] < |reqs| && reqs[storage[k]].closes == 0)
      && (forall k, l :: k in storage && l in storage && storage[k] == storage[l] ==> k == l)
    }

    /** The part of `queue` before it blocks. */
    method Enqueue(key: Option<Key>, self: nat) returns (loaded: bool, pending: nat)
      requires Valid()
      modifies this
      ensures Valid()
      ensures key.None? ==> !loaded && View() == old(View())
      ensures key.Some? ==> View() == LoadOrStore(old(View()), key.value, self)
      ensures key.Some? ==>
                loaded == (key.value in old(storage)) && key.value in storage && pending == storage[key.value]
    {
      if key.None? { return false, 0; }
      var r := |reqs|;
      reqs := reqs + [PendingRequest(self, None, None, 0)];
      loaded := key.value in storage;
      if !loaded { storage := storage[key.value := r]; }
      pending := storage[key.value];
    }

    method Done(key: Option<Key>, out: Outcome) returns (panicked: bool)
      requires Valid()
      modifies this
      ensures Valid()
      ensures panicked <==> key.Some? && key.value !in old(storage)
      ensures key.None? || panicked ==> View() == old(View())
      ensures key.Some? && !panicked ==>
                var r, s := old(storage)[key.value], old(View());
                View() == Close(Delete(WriteClone(WriteErr(s, r, out), r, out), key.value), r)
    {
      if key.None? { return false; }
      if key.value !in storage { return true; }
      var r := storage[key.value];
      reqs := reqs[r := reqs[r].(resolveErr := out.err)];
      reqs := reqs[r := reqs[r].(clone := Some(CloneOf(out)))];
      storage := storage - {key.value};
      reqs := reqs[r := reqs[r].(closes := reqs[r].closes + 1)];
      panicked := false;
    }
  }

  // The step system.

  /** What a follower is left with: the leader's error, upstream and statistics, and the leader's
      record sections under its own ID. */
  datatype Reply = Reply(err: Option<string>, upstream: string, stats: string, res: Option<Response>)

  function ReplyFor(out: Outcome, id: int): Reply {
    Reply(out.err, out.upstream, out.stats, if out.res.Some? then Some(out.res.value.(id := id)) else None)
  }

  /** Where a goroutine is. A `done` is five separate steps on the object it loads under the key it
      computes, which need not be the key the request was queued under. */
  datatype Phase =
    | Unregistered
    | Leading(req: nat)
    | Loaded(req: nat, key: Key, out: Outcome)
    | WroteErr(req: nat, key: Key, out: Outcome)
    | WroteClone(req: nat, key: Key, out: Outcome)
    | Deleted(req: nat, key: Key, out: Outcome)
    | Closed(req: nat, key: Key, out: Outcome)
    | Returned
    | Waiting(req: nat)
    | Released(req: nat, reply: Reply)
    | Panicked

  /** `key` is the key under which the request was queued. */
  datatype Proc = Proc(phase: Phase, key: Option<Key>, id: int)

  datatype System = System(sh: Shared, procs: map<nat, Proc>)

  const INITIAL := System(Shared(map[], []), map[])

  datatype Event =
    | Arrive(p: nat, key: Option<Key>, id: int)
    | DoneLoad(p: nat, doneKey: Option<Key>, out: Outcome)
    | DoneErr(p: nat)
    | DoneClone(p: nat)
    | DoneDelete(p: nat)
    | DoneClose(p: nat)
    | Wake(p: nat)

  function SetPhase(s: System, p: nat, ph: Phase): map<nat, Proc>
    requires p in s.procs
  {
    s.procs[p := s.procs[p].(phase := ph)]
  }

  /** `queue` did not block: `done` is due. */
  predicate DoneDue(s: System, p: nat) {
    p in s.procs && (s.procs[p].phase.Leading? || s.procs[p].phase.Unregistered?)
  }

  function ArriveStep(s: System, p: nat, key: Option<Key>, id: int): System {
    if key.None? then s.(procs := s.procs[p := Proc(Unregistered, None, id)])
    else
      var ph := if key.value in s.sh.storage then Waiting(s.sh.storage[key.value]) else Leading(|s.sh.reqs|);
      System(LoadOrStore(s.sh, key.value, p), s.procs[p := Proc(ph, key, id)])
  }

  function LoadStep(s: System, p: nat, k: Option<Key>, out: Outcome): System
    requires p in s.procs
  {
    var ph :=
      if k.None? then Returned
      else if k.value !in s.sh.storage then Panicked
      else Loaded(s.sh.storage[k.value], k.value, out);
    s.(procs := SetPhase(s, p, ph))
  }

  /** Closing a closed channel panics. */
  function CloseStep(s: System, p: nat): System
    requires p in s.procs && s.procs[p].phase.Deleted? && s.procs[p].phase.req < |s.sh.reqs|
  {
    var ph := s.procs[p].phase;
    if s.sh.reqs[ph.req].closes > 0 then s.(procs := SetPhase(s, p, Panicked))
    else System(Close(s.sh, ph.req), SetPhase(s, p, Closed(ph.req, ph.key, ph.out)))
  }

  /** A follower past a closed channel dereferences the clone. */
  function WakeStep(s: System, p: nat): System
    requires p in s.procs && s.procs[p].phase.Waiting? && s.procs[p].phase.req < |s.sh.reqs|
  {
    var req := s.procs[p].phase.req;
    var r := s.sh.reqs[req];
    if r.closes == 0 then s
    else if r.clone.None? then s.(procs := SetPhase(s, p, Panicked))
    else
      var c := r.clone.value;
      var res := if c.res.Some? then Some(c.res.value.(id := s.procs[p].id)) else None;
      s.(procs := SetPhase(s, p, Released(req, Reply(r.resolveErr, c.upstream, c.stats, res))))
  }

  /** A step that is not enabled changes nothing. */
  function Step(s: System, e: Event): System {
    match e
    case Arrive(p, key, id) => if p in s.procs then s else ArriveStep(s, p, key, id)
    case DoneLoad(p, k, out) => if DoneDue(s, p) then LoadStep(s, p, k, out) else s
    case DoneErr(p) =>
      if p !in s.procs || !s.procs[p].phase.Loaded? || s.procs[p].phase.req >= |s.sh.reqs| then s
      else
        var ph := s.procs[p].phase;
        System(WriteErr(s.sh, ph.req, ph.out), SetPhase(s, p, WroteErr(ph.req, ph.key, ph.out)))
    case DoneClone(p) =>
      if p !in s.procs || !s.procs[p].phase.WroteErr? || s.procs[p].phase.req >= |s.sh.reqs| then s
      else
        var ph := s.procs[p].phase;
        System(WriteClone(s.sh, ph.req, ph.out), SetPhase(s, p, WroteClone(ph.req, ph.key, ph.out)))
    case DoneDelete(p) =>
      if p !in s.procs || !s.procs[p].phase.WroteClone? then s
      else
        var ph := s.procs[p].phase;
        System(Delete(s.sh, ph.key), SetPhase(s, p, Deleted(ph.req, ph.key, ph.out)))
    case DoneClose(p) =>
      if p !in s.procs || !s.procs[p].phase.Deleted? || s.procs[p].phase.req >= |s.sh.reqs| then s
      else CloseStep(s, p)
    case Wake(p) =>
      if p !in s.procs || !s.procs[p].phase.Waiting? || s.procs[p].phase.req >= |s.sh.reqs| then s
      else WakeStep(s, p)
  }

  /** The state reached by any interleaving. */
  function Run(events: seq<Event>): System {
    Fold(Step, INITIAL, events)
  }

  // What holds in every run, whatever keys the requests compute.

  /** In the middle of a `done`, or past it. */
  predicate InDone(ph: Phase) {
    ph.Loaded? || ph.WroteErr? || ph.WroteClone? || ph.Deleted? || ph.Closed?
  }

  predicate HasReq(ph: Phase) {
    InDone(ph) || ph.Leading? || ph.Waiting? || ph.Released?
  }

  /** Request object `r` was created for key `k`. */
  predicate MadeFor(s: System, r: nat, k: Key) {
    r < |s.sh.reqs| && s.sh.reqs[r].owner in s.procs && s.procs[s.sh.reqs[r].owner].key == Some(k)
  }

  /** The key whose object a goroutine holds. */
  function HeldKey(pr: Proc): Option<Key> {
    if InDone(pr.phase) then Some(pr.phase.key) else pr.key
  }

  predicate ProcOk(s: System, p: nat)
    requires p in s.procs
  {
    var pr := s.procs[p];
    && (HasReq(pr.phase) ==> HeldKey(pr).Some? && MadeFor(s, pr.phase.req, HeldKey(pr).value))
    && (pr.phase.Leading? ==> s.sh.reqs[pr.phase.req].owner == p)
    && (pr.phase.WroteClone? || pr.phase.Deleted? ==> s.sh.reqs[pr.phase.req].clone.Some?)
    && (pr.phase.Closed? ==> s.sh.reqs[pr.phase.req].closes == 1)
    && (pr.phase.Unregistered? ==> pr.key.None?)
  }

  ghost predicate ProcsOk(s: System) {
    forall p :: p in s.procs ==> ProcOk(s, p)
  }

  /** A channel is closed at most once, and only over a written clone. */
  ghost predicate ReqsOk(s: System) {
    forall r :: 0 <= r < |s.sh.reqs| ==>
      s.sh.reqs[r].closes <= 1 && (s.sh.reqs[r].closes > 0 ==> s.sh.reqs[r].clone.Some?)
  }

  ghost predicate StorageOk(s: System) {
    forall k :: k in s.sh.storage ==> MadeFor(s, s.sh.storage[k], k)
  }

  ghost predicate Sound(s: System) {
    ProcsOk(s) && ReqsOk(s) && StorageOk(s)
  }

  lemma ReqStaysSound(s: System, e: Event, r: nat)
    requires Sound(s) && r < |Step(s, e).sh.reqs|
    ensures var q := Step(s, e).sh.reqs[r]; q.closes <= 1 && (q.closes > 0 ==> q.clone.Some?)
  {
    if e.DoneClose? && e.p in s.procs { assert ProcOk(s, e.p); }
  }

  lemma StorageStaysSound(s: System, e: Event)
    requires Sound(s)
    ensures StorageOk(Step(s, e))
  {
    forall k | k in Step(s, e).sh.storage ensures MadeFor(Step(s, e), Step(s, e).sh.storage[k], k) {
      if k in s.sh.storage { assert MadeFor(s, s.sh.storage[k], k); }
    }
  }

  /** Objects and goroutines keep their owners and keys, and what is written or closed stays so. */
  ghost predicate Grows(s: System, s': System) {
    && (forall p :: p in s.procs ==> p in s'.procs && s'.procs[p].key == s.procs[p].key)
    && |s.sh.reqs| <= |s'.sh.reqs|
    && forall r :: 0 <= r < |s.sh.reqs| ==>
         var a, b := s.sh.reqs[r], s'.sh.reqs[r];
         a.owner == b.owner && (a.clone.Some? ==> b.clone.Some?) && a.closes <= b.closes
  }

  lemma StepGrows(s: System, e: Event)
    ensures Grows(s, Step(s, e))
  {
  }

  lemma UnmovedStaysSound(s: System, s': System, p: nat)
    requires Grows(s, s') && ReqsOk(s') && p in s.procs && ProcOk(s, p) && s'.procs[p] == s.procs[p]
    ensures ProcOk(s', p)
  {
  }

  lemma MovedStaysSound(s: System, e: Event)
    requires Sound(s) && e.p in Step(s, e).procs
    ensures ProcOk(Step(s, e), e.p)
  {
    if e.p in s.procs { assert ProcOk(s, e.p); }
    if e.Arrive? && e.key.Some? && e.key.value in s.sh.storage {
      assert MadeFor(s, s.sh.storage[e.key.value], e.key.value);
    }
    if e.DoneLoad? && e.doneKey.Some? && e.doneKey.value in s.sh.storage {
      assert MadeFor(s, s.sh.storage[e.doneKey.value], e.doneKey.value);
    }
  }

  lemma StepKeepsSound(s: System, e: Event)
    requires Sound(s)
    ensures Sound(Step(s, e))
  {
    forall r | 0 <= r < |Step(s, e).sh.reqs|
      ensures var q := Step(s, e).sh.reqs[r]; q.closes <= 1 && (q.closes > 0 ==> q.clone.Some?)
    {
      ReqStaysSound(s, e, r);
    }
    StorageStaysSound(s, e);
    StepGrows(s, e);
    forall p | p in Step(s, e).procs ensures ProcOk(Step(s, e), p) {
      if p == e.p { MovedStaysSound(s, e); } else { UnmovedStaysSound(s, Step(s, e), p); }
    }
  }

  lemma {:induction false} RunIsSound(events: seq<Event>)
    ensures Sound(Run(events))
  {
    if events == [] {
    } else {
      RunIsSound(events[..|events| - 1]);
      StepKeepsSound(Run(events[..|events| - 1]), events[|events| - 1]);
    }
  }

  /** In every run, a follower whose leader's channel is closed gets a reply and never a nil clone,
      and every channel is closed at most once. */
  lemma WakeNeverPanics(events: seq<Event>, p: nat)
    requires p in Run(events).procs && Run(events).procs[p].phase.Waiting?
    ensures var s := Run(events);
            var r := s.procs[p].phase.req;
            && r < |s.sh.reqs| && s.sh.reqs[r].closes <= 1
            && !Step(s, Wake(p)).procs[p].phase.Panicked?
            && (Step(s, Wake(p)).procs[p].phase.Released? <==> s.sh.reqs[r].closes == 1)
  {
    RunIsSound(events);
    assert ProcOk(Run(events), p);
  }

  // Whose result a follower gets, whatever keys the requests compute.

  /** The result that a due `done` brings, with the key it computes. */
  function Brought(s: System, e: Event): set<(Key, Outcome)> {
    if e.DoneLoad? && DoneDue(s, e.p) && e.doneKey.Some? then {(e.doneKey.value, e.out)} else {}
  }

  function AllBrought(events: seq<Event>): set<(Key, Outcome)> {
    if events == [] then {}
    else
      var front := events[..|events| - 1];
      AllBrought(front) + Brought(Run(front), events[|events| - 1])
  }

  /** The error of object `r` is that of a result brought under its key. */
  ghost predicate ErrBrought(b: set<(Key, Outcome)>, s: System, r: nat)
    requires r < |s.sh.reqs|
  {
    exists k, out :: (k, out) in b && MadeFor(s, r, k) && s.sh.reqs[r].resolveErr == out.err
  }

  ghost predicate CloneBrought(b: set<(Key, Outcome)>, s: System, r: nat)
    requires r < |s.sh.reqs|
  {
    exists k, out :: (k, out) in b && MadeFor(s, r, k) && s.sh.reqs[r].clone == Some(CloneOf(out))
  }

  /** The reply combines the error of one result brought under `k` with the rest of one. */
  ghost predicate ReplyBrought(b: set<(Key, Outcome)>, k: Key, id: int, reply: Reply) {
    exists first, second :: (k, first) in b && (k, second) in b && reply == ReplyFor(second, id).(err := first.err)
  }

  ghost predicate ReqTraced(b: set<(Key, Outcome)>, s: System, r: nat)
    requires r < |s.sh.reqs|
  {
    s.sh.reqs[r].clone.Some? ==> ErrBrought(b, s, r) && CloneBrought(b, s, r)
  }

  ghost predicate ProcTraced(b: set<(Key, Outcome)>, s: System, p: nat)
    requires p in s.procs && ProcOk(s, p)
  {
    var pr := s.procs[p];
    && (InDone(pr.phase) ==> (pr.phase.key, pr.phase.out) in b)
    && (pr.phase.WroteErr? ==> ErrBrought(b, s, pr.phase.req))
    && (pr.phase.Released? ==> ReplyBrought(b, pr.key.value, pr.id, pr.phase.reply))
  }

  ghost predicate Traced(b: set<(Key, Outcome)>, s: System) {
    && Sound(s)
    && (forall r :: 0 <= r < |s.sh.reqs| ==> ReqTraced(b, s, r))
    && (forall p :: p in s.procs ==> ProcTraced(b, s, p))
  }

  lemma ErrStaysBrought(b: set<(Key, Outcome)>, s: System, e: Event, r: nat)
    requires Traced(b, s) && r < |s.sh.reqs| <= |Step(s, e).sh.reqs| && ErrBrought(b, s, r)
    ensures ErrBrought(b + Brought(s, e), Step(s, e), r)
  {
    StepGrows(s, e);
    var k, out :| (k, out) in b && MadeFor(s, r, k) && s.sh.reqs[r].resolveErr == out.err;
    assert MadeFor(Step(s, e), r, k);
    if Step(s, e).sh.reqs[r].resolveErr != out.err {
      var ph := s.procs[e.p].phase;
      assert ProcOk(s, e.p) && ProcTraced(b, s, e.p);
      assert (ph.key, ph.out) in b + Brought(s, e) && MadeFor(Step(s, e), r, ph.key);
    }
  }

  lemma CloneStaysBrought(b: set<(Key, Outcome)>, s: System, e: Event, r: nat)
    requires Traced(b, s) && r < |s.sh.reqs| <= |Step(s, e).sh.reqs|
    requires CloneBrought(b, s, r) || s.sh.reqs[r].clone.None?
    ensures Step(s, e).sh.reqs[r].clone.Some? ==> CloneBrought(b + Brought(s, e), Step(s, e), r)
  {
    StepGrows(s, e);
    if s.sh.reqs[r].clone != Step(s, e).sh.reqs[r].clone {
      var ph := s.procs[e.p].phase;
      assert ProcOk(s, e.p) && ProcTraced(b, s, e.p);
      assert (ph.key, ph.out) in b + Brought(s, e) && MadeFor(Step(s, e), r, ph.key);
    } else if s.sh.reqs[r].clone.Some? {
      var k, out :| (k, out) in b && MadeFor(s, r, k) && s.sh.reqs[r].clone == Some(CloneOf(out));
      assert MadeFor(Step(s, e), r, k);
    }
  }

  lemma ReqStaysTraced(b: set<(Key, Outcome)>, s: System, e: Event, r: nat)
    requires Traced(b, s) && r < |Step(s, e).sh.reqs|
    ensures ReqTraced(b + Brought(s, e), Step(s, e), r)
  {
    if r < |s.sh.reqs| {
      assert ReqTraced(b, s, r);
      CloneStaysBrought(b, s, e, r);
      if e.p in s.procs { assert ProcTraced(b, s, e.p); }
      if ErrBrought(b, s, r) { ErrStaysBrought(b, s, e, r); }
    }
  }

  lemma WokenIsTraced(b: set<(Key, Outcome)>, s: System, p: nat)
    requires Traced(b, s) && p in s.procs && s.procs[p].phase.Waiting?
    ensures var ph := Step(s, Wake(p)).procs[p].phase;
            ph.Released? ==> s.procs[p].key.Some? && ReplyBrought(b, s.procs[p].key.value, s.procs[p].id, ph.reply)
  {
    assert ProcOk(s, p);
    var r := s.procs[p].phase.req;
    if s.sh.reqs[r].closes > 0 {
      assert ReqTraced(b, s, r);
      var k, first :| (k, first) in b && MadeFor(s, r, k) && s.sh.reqs[r].resolveErr == first.err;
      var l, second :| (l, second) in b && MadeFor(s, r, l) && s.sh.reqs[r].clone == Some(CloneOf(second));
    }
  }

  lemma UnmovedStaysTraced(b: set<(Key, Outcome)>, s: System, e: Event, p: nat)
    requires Traced(b, s) && Sound(Step(s, e)) && p in s.procs && Step(s, e).procs[p] == s.procs[p]
    ensures ProcTraced(b + Brought(s, e), Step(s, e), p)
  {
    assert ProcOk(s, p) && ProcTraced(b, s, p);
    StepGrows(s, e);
    if s.procs[p].phase.WroteErr? { ErrStaysBrought(b, s, e, s.procs[p].phase.req); }
  }

  lemma MovedStaysTraced(b: set<(Key, Outcome)>, s: System, e: Event)
    requires Traced(b, s) && Sound(Step(s, e)) && e.p in Step(s, e).procs
    ensures ProcTraced(b + Brought(s, e), Step(s, e), e.p)
  {
    if e.p in s.procs {
      var ph := s.procs[e.p].phase;
      assert ProcOk(s, e.p) && ProcTraced(b, s, e.p);
      if Step(s, e).procs[e.p] == s.procs[e.p] {
        UnmovedStaysTraced(b, s, e, e.p);
      } else if e.Wake? {
        WokenIsTraced(b, s, e.p);
      } else if e.DoneErr? {
        assert MadeFor(Step(s, e), ph.req, ph.key);
      }
    }
  }

  lemma {:induction false} RunIsTraced(events: seq<Event>)
    ensures Traced(AllBrought(events), Run(events))
  {
    RunIsSound(events);
    if events == [] {
    } else {
      var front, e := events[..|events| - 1], events[|events| - 1];
      RunIsTraced(front);
      var b, s := AllBrought(front), Run(front);
      forall r | 0 <= r < |Step(s, e).sh.reqs| ensures ReqTraced(b + Brought(s, e), Step(s, e), r) {
        ReqStaysTraced(b, s, e, r);
      }
      forall p | p in Step(s, e).procs ensures ProcTraced(b + Brought(s, e), Step(s, e), p) {
        if p == e.p { MovedStaysTraced(b, s, e); } else { UnmovedStaysTraced(b, s, e, p); }
      }
    }
  }

  /** Event `i` of the run is a due `done` that computes key `k`. */
  ghost predicate DoneAt(events: seq<Event>, i: nat, k: Key)
    requires i < |events|
  {
    events[i].DoneLoad? && DoneDue(Run(events[..i]), events[i].p) && events[i].doneKey == Some(k)
  }

  lemma {:induction false} BroughtByEvent(events: seq<Event>, k: Key, out: Outcome) returns (i: nat)
    requires (k, out) in AllBrought(events)
    ensures i < |events| && DoneAt(events, i, k) && events[i].out == out
  {
    var front := events[..|events| - 1];
    if (k, out) in Brought(Run(front), events[|events| - 1]) {
      i := |front|;
    } else {
      i := BroughtByEvent(front, k, out);
      assert front[..i] == events[..i];
    }
  }

  /** In every run, a released follower has the error of a `done` that computed the follower's key,
      and the upstream, statistics and record sections of such a `done` under its own ID. */
  lemma ReleasedByItsKey(events: seq<Event>, p: nat) returns (i: nat, j: nat)
    requires p in Run(events).procs && Run(events).procs[p].phase.Released?
    ensures var pr := Run(events).procs[p];
            && pr.key.Some? && i < |events| && j < |events|
            && DoneAt(events, i, pr.key.value) && DoneAt(events, j, pr.key.value)
            && pr.phase.reply == ReplyFor(events[j].out, pr.id).(err := events[i].out.err)
  {
    RunIsTraced(events);
    var pr := Run(events).procs[p];
    assert ProcOk(Run(events), p) && ProcTraced(AllBrought(events), Run(events), p);
    var k := pr.key.value;
    var first, second :|
      && (k, first) in AllBrought(events) && (k, second) in AllBrought(events)
      && pr.phase.reply == ReplyFor(second, pr.id).(err := first.err);
    i := BroughtByEvent(events, k, first);
    j := BroughtByEvent(events, k, second);
  }

  // Exactly when `done` panics.

  /** Event `i` of the run queues a request under `k`: afterwards `k` is in the map. */
  ghost predicate Queues(events: seq<Event>, i: nat, k: Key)
    requires i < |events|
  {
    events[i].Arrive? && events[i].key == Some(k) && events[i].p !in Run(events[..i]).procs
  }

  /** Event `i` of the run takes `k` out of the map. */
  ghost predicate Removes(events: seq<Event>, i: nat, k: Key)
    requires i < |events|
  {
    events[i].DoneDelete? && var s := Run(events[..i]);
    events[i].p in s.procs && s.procs[events[i].p].phase.WroteClone? && s.procs[events[i].p].phase.key == k
  }

  /** Some request was queued under `k`, and no `done` has removed `k` since. */
  ghost predicate QueuedSince(events: seq<Event>, k: Key) {
    exists i :: 0 <= i < |events| && Queues(events, i, k) && KeptAfter(events, i, k)
  }

  ghost predicate KeptAfter(events: seq<Event>, i: nat, k: Key) {
    forall j :: i < j < |events| ==> !Removes(events, j, k)
  }

  lemma HistorySnoc(front: seq<Event>, e: Event, i: nat, k: Key)
    requires i < |front|
    ensures Queues(front + [e], i, k) == Queues(front, i, k) && Removes(front + [e], i, k) == Removes(front, i, k)
  {
    assert (front + [e])[..i] == front[..i];
  }

  lemma QueuedSinceSnoc(front: seq<Event>, e: Event, k: Key)
    ensures var n, all := |front|, front + [e];
            QueuedSince(all, k) <==> Queues(all, n, k) || (QueuedSince(front, k) && !Removes(all, n, k))
  {
    var n, all := |front|, front + [e];
    forall i | 0 <= i < n
      ensures Queues(all, i, k) == Queues(front, i, k) && Removes(all, i, k) == Removes(front, i, k)
    {
      HistorySnoc(front, e, i, k);
    }
    if Queues(all, n, k) {
      assert KeptAfter(all, n, k);
    } else {
      if QueuedSince(front, k) && !Removes(all, n, k) {
        var i :| 0 <= i < n && Queues(front, i, k) && KeptAfter(front, i, k);
        assert KeptAfter(all, i, k);
      }
      if QueuedSince(all, k) {
        var i :| 0 <= i < |all| && Queues(all, i, k) && KeptAfter(all, i, k);
        assert KeptAfter(front, i, k);
      }
    }
  }

  /** The map holds a key exactly if a request was queued under it and none has removed it since. */
  lemma {:induction false} StorageByHistory(events: seq<Event>, k: Key)
    ensures k in Run(events).sh.storage <==> QueuedSince(events, k)
  {
    if events == [] {
    } else {
      var front, e := events[..|events| - 1], events[|events| - 1];
      assert events == front + [e];
      StorageByHistory(front, k);
      QueuedSinceSnoc(front, e, k);
      assert events[..|front|] == front;
    }
  }

  /** In every run, a due `done` that computes key `k` panics exactly if no request was queued under
      `k` since the last removal of `k`. */
  lemma DonePanicsIff(events: seq<Event>, p: nat, k: Key, out: Outcome)
    requires DoneDue(Run(events), p)
    ensures Step(Run(events), DoneLoad(p, Some(k), out)).procs[p].phase.Panicked? <==> !QueuedSince(events, k)
  {
    StorageByHistory(events, k);
  }

  /** Goroutine `q` has closed the channel of object `r`. */
  predicate ClosedBy(s: System, q: nat, r: nat) {
    q in s.procs && s.procs[q].phase.Closed? && s.procs[q].phase.req == r
  }

  ghost predicate CloserKnown(s: System, r: nat)
    requires r < |s.sh.reqs|
  {
    s.sh.reqs[r].closes > 0 ==> exists q :: ClosedBy(s, q, r)
  }

  lemma {:induction false} ClosersKnown(events: seq<Event>, r: nat)
    requires r < |Run(events).sh.reqs|
    ensures CloserKnown(Run(events), r)
  {
    if events == [] {
    } else {
      var s, e := Run(events[..|events| - 1]), events[|events| - 1];
      if r < |s.sh.reqs| {
        ClosersKnown(events[..|events| - 1], r);
        StepKeepsCloser(s, e, r);
      }
    }
  }

  lemma StepKeepsCloser(s: System, e: Event, r: nat)
    requires r < |s.sh.reqs| <= |Step(s, e).sh.reqs| && CloserKnown(s, r)
    ensures CloserKnown(Step(s, e), r)
  {
    var s' := Step(s, e);
    if s.sh.reqs[r].closes > 0 {
      var q :| ClosedBy(s, q, r);
      assert ClosedBy(s', q, r);
    } else if s'.sh.reqs[r].closes > 0 {
      assert ClosedBy(s', e.p, r);
    }
  }

  /** The other panic: in every run, the last step of a `done` panics exactly if another `done` has
      closed the channel of the object it had loaded. */
  lemma ClosePanicsIff(events: seq<Event>, p: nat)
    requires p in Run(events).procs && Run(events).procs[p].phase.Deleted?
    ensures var s := Run(events);
            Step(s, DoneClose(p)).procs[p].phase.Panicked? <==> exists q :: ClosedBy(s, q, s.procs[p].phase.req)
  {
    var s := Run(events);
    RunIsSound(events);
    assert ProcOk(s, p);
    ClosersKnown(events, s.procs[p].phase.req);
    forall q | ClosedBy(s, q, s.procs[p].phase.req) ensures ProcOk(s, q) {}
  }

  // A key that no request moves to or from.

  /** The event does not move a request to key `k` or away from it. */
  predicate StableStep(s: System, e: Event, k: Key) {
    e.DoneLoad? && DoneDue(s, e.p) ==> (e.doneKey == Some(k) <==> s.procs[e.p].key == Some(k))
  }

  /** In the whole run, exactly the requests queued under `k` compute `k` when they are done. */
  ghost predicate StableFor(events: seq<Event>, k: Key) {
    forall i :: 0 <= i < |events| ==> StableStep(Run(events[..i]), events[i], k)
  }

  /** A running leader: its key is in the map. */
  predicate Running(ph: Phase) {
    ph.Leading? || ph.Loaded? || ph.WroteErr? || ph.WroteClone?
  }

  predicate Owns(ph: Phase) { ph.Leading? || InDone(ph) }

  /** `p` leads the requests that wait on object `r`. */
  predicate Leads(s: System, p: nat, r: nat) {
    p in s.procs && Owns(s.procs[p].phase) && s.procs[p].phase.req == r
  }

  predicate LeadsKey(s: System, p: nat, k: Key) {
    p in s.procs && Running(s.procs[p].phase) && s.procs[p].key == Some(k)
  }

  predicate IsFor(s: System, p: nat, k: Key) { p in s.procs && s.procs[p].key == Some(k) }

  ghost predicate LeaderOk(s: System, p: nat, k: Key)
    requires IsFor(s, p, k)
  {
    var ph := s.procs[p].phase;
    Owns(ph) ==>
      && ph.req < |s.sh.reqs|
      && var r := s.sh.reqs[ph.req];
      && r.owner == p
      && (Running(ph) ==> k in s.sh.storage && s.sh.storage[k] == ph.req)
      && r.closes == (if ph.Closed? then 1 else 0)
      && (ph.WroteErr? || ph.WroteClone? || ph.Deleted? || ph.Closed? ==> r.resolveErr == ph.out.err)
      && (ph.WroteClone? || ph.Deleted? || ph.Closed? ==> r.clone == Some(CloneOf(ph.out)))
  }

  ghost predicate FollowerOk(s: System, p: nat, k: Key)
    requires IsFor(s, p, k)
  {
    var ph := s.procs[p].phase;
    (ph.Waiting? || ph.Released?) ==>
      && ph.req < |s.sh.reqs|
      && var l := s.sh.reqs[ph.req].owner;
      && Leads(s, l, ph.req) && s.procs[l].key == Some(k)
      && (ph.Released? ==> s.procs[l].phase.Closed? && ph.reply == ReplyFor(s.procs[l].phase.out, s.procs[p].id))
  }

  ghost predicate MemberOk(s: System, p: nat, k: Key)
    requires IsFor(s, p, k)
  {
    LeaderOk(s, p, k) && FollowerOk(s, p, k) && !s.procs[p].phase.Panicked? && !s.procs[p].phase.Returned?
  }

  ghost predicate KeyOk(s: System, k: Key) {
    k in s.sh.storage ==>
      && s.sh.storage[k] < |s.sh.reqs|
      && var l := s.sh.reqs[s.sh.storage[k]].owner;
      LeadsKey(s, l, k) && s.procs[l].phase.req == s.sh.storage[k]
  }

  /** Only requests queued under `k` are done under `k`. */
  ghost predicate Isolated(s: System, k: Key) {
    forall p :: p in s.procs && InDone(s.procs[p].phase) ==> (s.procs[p].phase.key == k <==> s.procs[p].key == Some(k))
  }

  ghost predicate Inv(s: System, k: Key) {
    Isolated(s, k) && KeyOk(s, k) && forall p :: IsFor(s, p, k) ==> MemberOk(s, p, k)
  }

  /** The part of the system that belongs to `k` is the same in both states. */
  ghost predicate SameFor(s: System, s': System, k: Key) {
    && (forall p :: IsFor(s', p, k) <==> IsFor(s, p, k))
    && (forall p :: IsFor(s, p, k) ==> s'.procs[p] == s.procs[p])
    && (k in s'.sh.storage <==> k in s.sh.storage) && (k in s.sh.storage ==> s'.sh.storage[k] == s.sh.storage[k])
    && (forall r: nat :: MadeFor(s, r, k) ==> r < |s'.sh.reqs| && s'.sh.reqs[r] == s.sh.reqs[r])
  }

  lemma SameKeepsInv(s: System, s': System, k: Key)
    requires Inv(s, k) && SameFor(s, s', k) && Isolated(s', k)
    ensures Inv(s', k)
  {
    forall p | IsFor(s', p, k) ensures MemberOk(s', p, k) {
      assert IsFor(s, p, k) && MemberOk(s, p, k);
      var ph := s.procs[p].phase;
      if HasReq(ph) {
        assert MadeFor(s, ph.req, k);
        assert IsFor(s, s.sh.reqs[ph.req].owner, k);
      }
    }
    if k in s.sh.storage {
      assert MadeFor(s, s.sh.storage[k], k);
      assert IsFor(s, s.sh.reqs[s.sh.storage[k]].owner, k);
    }
  }

  /** The event is a step of a request queued under another key. */
  predicate Foreign(s: System, e: Event, k: Key) {
    if e.Arrive? then e.key != Some(k) else !IsFor(s, e.p, k)
  }

  lemma ForeignWrites(s: System, e: Event, k: Key, r: nat)
    requires Sound(s) && Isolated(s, k) && Foreign(s, e, k) && MadeFor(s, r, k)
    ensures r < |Step(s, e).sh.reqs| && Step(s, e).sh.reqs[r] == s.sh.reqs[r]
  {
    if e.p in s.procs { assert ProcOk(s, e.p); }
  }

  lemma ForeignIsolated(s: System, e: Event, k: Key)
    requires Isolated(s, k) && StableStep(s, e, k) && Foreign(s, e, k)
    ensures Isolated(Step(s, e), k)
  {
  }

  lemma ForeignMoves(s: System, e: Event, k: Key, p: nat)
    requires Foreign(s, e, k)
    ensures IsFor(Step(s, e), p, k) <==> IsFor(s, p, k)
    ensures IsFor(s, p, k) ==> Step(s, e).procs[p] == s.procs[p]
  {
  }

  /** A step of a request queued under another key does not touch what belongs to `k`. */
  lemma ForeignStep(s: System, e: Event, k: Key)
    requires Sound(s) && Isolated(s, k) && StableStep(s, e, k) && Foreign(s, e, k)
    ensures SameFor(s, Step(s, e), k) && Isolated(Step(s, e), k)
  {
    var s' := Step(s, e);
    ForeignIsolated(s, e, k);
    forall p: nat
      ensures IsFor(s', p, k) <==> IsFor(s, p, k)
      ensures IsFor(s, p, k) ==> s'.procs[p] == s.procs[p]
    {
      ForeignMoves(s, e, k, p);
    }
    forall r: nat | MadeFor(s, r, k) ensures r < |s'.sh.reqs| && s'.sh.reqs[r] == s.sh.reqs[r] {
      ForeignWrites(s, e, k, r);
    }
  }

  /** A leader moving on touches only its own object and its own key. */
  lemma LeaderMoves(s: System, s': System, p: nat, k: Key)
    requires Inv(s, k) && IsFor(s, p, k) && Owns(s.procs[p].phase) && !s.procs[p].phase.Closed?
    requires var pr, r := s.procs[p], s.procs[p].phase.req;
             && p in s'.procs && s'.procs == s.procs[p := pr.(phase := s'.procs[p].phase)] && Leads(s', p, r)
             && |s'.sh.reqs| == |s.sh.reqs|
             && (forall i :: 0 <= i < |s.sh.reqs| && i != r ==> s'.sh.reqs[i] == s.sh.reqs[i])
             && (Running(s'.procs[p].phase) ==> Running(pr.phase))
             && var ends := Running(pr.phase) && !Running(s'.procs[p].phase);
             s'.sh.storage == if ends then s.sh.storage - {k} else s.sh.storage
    requires LeaderOk(s', p, k) && Isolated(s', k)
    ensures Inv(s', k)
  {
    assert MemberOk(s, p, k);
    forall q | IsFor(s', q, k) ensures MemberOk(s', q, k) { assert MemberOk(s, q, k); }
  }

  lemma ArriveKeepsInv(s: System, p: nat, k: Key, id: int)
    requires Sound(s) && Inv(s, k) && p !in s.procs
    ensures Inv(Step(s, Arrive(p, Some(k), id)), k)
  {
    var s' := Step(s, Arrive(p, Some(k), id));
    forall q | IsFor(s', q, k) ensures MemberOk(s', q, k) {
      if q != p { assert MemberOk(s, q, k); }
    }
  }

  lemma WakeKeepsInv(s: System, p: nat, k: Key)
    requires Inv(s, k) && IsFor(s, p, k)
    ensures Inv(Step(s, Wake(p)), k)
  {
    var s' := Step(s, Wake(p));
    if s' != s {
      assert MemberOk(s, p, k);
      assert MemberOk(s, s.sh.reqs[s.procs[p].phase.req].owner, k);
      forall q | IsFor(s', q, k) ensures MemberOk(s', q, k) { assert MemberOk(s, q, k); }
    }
  }

  /** Every step keeps the invariant of a key, as long as no request moves to it or away from it. */
  lemma StepKeepsInv(s: System, e: Event, k: Key)
    requires Sound(s) && Inv(s, k) && StableStep(s, e, k)
    ensures Inv(Step(s, e), k)
  {
    if Step(s, e) == s {
    } else if Foreign(s, e, k) {
      ForeignStep(s, e, k);
      SameKeepsInv(s, Step(s, e), k);
    } else if e.Arrive? {
      ArriveKeepsInv(s, e.p, k, e.id);
    } else if e.Wake? {
      WakeKeepsInv(s, e.p, k);
    } else {
      assert MemberOk(s, e.p, k) && ProcOk(s, e.p);
      LeaderMoves(s, Step(s, e), e.p, k);
    }
  }

  lemma {:induction false} RunKeepsInv(events: seq<Event>, k: Key)
    requires StableFor(events, k)
    ensures Inv(Run(events), k)
  {
    if events == [] {
    } else {
      var front := events[..|events| - 1];
      forall i | 0 <= i < |front| ensures StableStep(Run(front[..i]), front[i], k) {
        assert front[..i] == events[..i];
      }
      RunKeepsInv(front, k);
      RunIsSound(front);
      StepKeepsInv(Run(front), events[|events| - 1], k);
    }
  }

  /** `k` is in the map exactly when a running leader has it, and at most one does. */
  ghost predicate OneLeader(s: System, k: Key) {
    && (k in s.sh.storage <==> exists p :: LeadsKey(s, p, k))
    && forall p, q :: LeadsKey(s, p, k) && LeadsKey(s, q, k) ==> p == q
  }

  lemma InvStorage(s: System, k: Key)
    requires Inv(s, k)
    ensures OneLeader(s, k)
  {
    if k in s.sh.storage { assert LeadsKey(s, s.sh.reqs[s.sh.storage[k]].owner, k); }
    forall p | LeadsKey(s, p, k) ensures IsFor(s, p, k) && MemberOk(s, p, k) {}
  }

  /** The map holds `k` exactly while a leader of `k` runs, and it has one leader. */
  lemma StorageIsRunningLeaders(events: seq<Event>, k: Key)
    requires StableFor(events, k)
    ensures OneLeader(Run(events), k)
  {
    RunKeepsInv(events, k);
    InvStorage(Run(events), k);
  }

  /** Neither panic of `done`, nor any other, happens to a request queued under `k`. */
  lemma StableNeverPanics(events: seq<Event>, p: nat, k: Key)
    requires StableFor(events, k) && IsFor(Run(events), p, k)
    ensures !Run(events).procs[p].phase.Panicked?
  {
    RunKeepsInv(events, k);
  }

  /** Each channel is closed exactly when its leader has finished, and once. */
  lemma ClosedOnce(events: seq<Event>, p: nat, k: Key)
    requires StableFor(events, k) && IsFor(Run(events), p, k) && Owns(Run(events).procs[p].phase)
    ensures var s := Run(events);
            var r := s.procs[p].phase.req;
            && r < |s.sh.reqs| && s.sh.reqs[r].owner == p
            && s.sh.reqs[r].closes == if s.procs[p].phase.Closed? then 1 else 0
  {
    RunKeepsInv(events, k);
    assert MemberOk(Run(events), p, k);
  }

  /** `p` waits on a leader of its own key that runs or has finished, and it can be released as
      soon as that leader has finished. */
  ghost predicate WaitsOnLeader(s: System, p: nat)
    requires p in s.procs && s.procs[p].phase.Waiting?
  {
    var r := s.procs[p].phase.req;
    && r < |s.sh.reqs|
    && var l := s.sh.reqs[r].owner;
    && Leads(s, l, r) && s.procs[l].key == s.procs[p].key
    && (s.procs[l].phase.Closed? <==> Step(s, Wake(p)).procs[p].phase.Released?)
  }

  lemma InvFollower(s: System, p: nat, k: Key)
    requires Inv(s, k) && IsFor(s, p, k) && s.procs[p].phase.Waiting?
    ensures WaitsOnLeader(s, p)
  {
    assert MemberOk(s, p, k);
    assert MemberOk(s, s.sh.reqs[s.procs[p].phase.req].owner, k);
  }

  lemma FollowerHasLeader(events: seq<Event>, p: nat, k: Key)
    requires StableFor(events, k) && IsFor(Run(events), p, k) && Run(events).procs[p].phase.Waiting?
    ensures WaitsOnLeader(Run(events), p)
  {
    RunKeepsInv(events, k);
    InvFollower(Run(events), p, k);
  }

  /** A released follower got its finished leader's error, upstream and statistics, and that
      leader's record sections under its own ID. */
  lemma ReleasedWithLeadersResult(events: seq<Event>, p: nat, k: Key) returns (l: nat)
    requires StableFor(events, k) && IsFor(Run(events), p, k) && Run(events).procs[p].phase.Released?
    ensures var s := Run(events);
            && IsFor(s, l, k) && s.procs[l].phase.Closed?
            && s.procs[p].phase.reply == ReplyFor(s.procs[l].phase.out, s.procs[p].id)
  {
    RunKeepsInv(events, k);
    assert MemberOk(Run(events), p, k);
    l := Run(events).sh.reqs[Run(events).procs[p].phase.req].owner;
  }

  // Runs in which no request changes its key.

  ghost predicate KeysStable(events: seq<Event>) {
    forall i :: 0 <= i < |events| ==> KeyStable(Run(events[..i]), events[i])
  }

  predicate KeyStable(s: System, e: Event) {
    e.DoneLoad? && DoneDue(s, e.p) ==> e.doneKey == s.procs[e.p].key
  }

  /** If no request changes its key, no goroutine panics, and the next `done` would panic exactly
      for a key without a running leader. */
  lemma StableRunPanicsIff(events: seq<Event>, p: nat, k: Key, out: Outcome)
    requires KeysStable(events) && DoneDue(Run(events), p)
    ensures forall q :: q in Run(events).procs ==> !Run(events).procs[q].phase.Panicked?
    ensures Step(Run(events), DoneLoad(p, Some(k), out)).procs[p].phase.Panicked? <==>
            !exists q :: LeadsKey(Run(events), q, k)
    ensures Run(events).procs[p].key == Some(k) ==>
              !Step(Run(events), DoneLoad(p, Some(k), out)).procs[p].phase.Panicked?
  {
    var s := Run(events);
    forall q | q in s.procs ensures !s.procs[q].phase.Panicked? { NoPanicIfStable(events, q); }
    StableRunIsStableFor(events, k);
    StorageIsRunningLeaders(events, k);
    if s.procs[p].key == Some(k) {
      RunIsSound(events);
      assert ProcOk(s, p) && LeadsKey(s, p, k);
    }
  }

  lemma StableRunIsStableFor(events: seq<Event>, k: Key)
    requires KeysStable(events)
    ensures StableFor(events, k)
  {
    forall i | 0 <= i < |events| ensures StableStep(Run(events[..i]), events[i], k) {
      assert KeyStable(Run(events[..i]), events[i]);
    }
  }

  lemma {:induction false} NoPanicIfStable(events: seq<Event>, q: nat)
    requires KeysStable(events) && q in Run(events).procs
    ensures !Run(events).procs[q].phase.Panicked?
  {
    var key := Run(events).procs[q].key;
    if key.Some? {
      StableRunIsStableFor(events, key.value);
      StableNeverPanics(events, q, key.value);
    } else {
      UnregisteredStays(events, q);
    }
  }

  predicate Keyless(pr: Proc) {
    pr.key.None? ==> pr.phase.Unregistered? || pr.phase.Returned?
  }

  lemma StepKeyless(s: System, e: Event, q: nat)
    requires KeyStable(s, e) && q in Step(s, e).procs && (q in s.procs ==> Keyless(s.procs[q]))
    ensures Keyless(Step(s, e).procs[q])
  {
  }

  lemma KeysStableFront(events: seq<Event>)
    requires events != [] && KeysStable(events)
    ensures KeysStable(events[..|events| - 1])
  {
    var front := events[..|events| - 1];
    forall i | 0 <= i < |front| ensures KeyStable(Run(front[..i]), front[i]) { assert front[..i] == events[..i]; }
  }

  lemma {:induction false} UnregisteredStays(events: seq<Event>, q: nat)
    requires KeysStable(events) && q in Run(events).procs
    ensures Keyless(Run(events).procs[q])
  {
    if events == [] {
    } else {
      var front := events[..|events| - 1];
      KeysStableFront(events);
      if q in Run(front).procs { UnregisteredStays(front, q); }
      assert KeyStable(Run(front), events[|front|]);
      StepKeyless(Run(front), events[|front|], q);
    }
  }

  /** A changed key can make the `done` of another request panic: request 0 is queued under `k` but
      done under `l`, so request 1, queued and done under `l`, finds its own key gone although it
      still leads it. */
  lemma ChangedKeyExample(k: Key, l: Key, out: Outcome)
    requires k != l
    ensures var events := [Arrive(0, Some(k), 0), Arrive(1, Some(l), 1),
                           DoneLoad(0, Some(l), out), DoneErr(0), DoneClone(0), DoneDelete(0)];
            && DoneDue(Run(events), 1) && LeadsKey(Run(events), 1, l)
            && Step(Run(events), DoneLoad(1, Some(l), out)).procs[1].phase.Panicked?
  {
    TwoLeaders(k, l);
    var start, load := [Arrive(0, Some(k), 0), Arrive(1, Some(l), 1)], DoneLoad(0, Some(l), out);
    FoldSnoc(Step, INITIAL, start, load);
    FoldThree(Step, INITIAL, start + [load], DoneErr(0), DoneClone(0), DoneDelete(0));
    TakesKeyAway(Run(start + [load]), 0);
    assert start + [load] + [DoneErr(0), DoneClone(0), DoneDelete(0)]
        == [Arrive(0, Some(k), 0), Arrive(1, Some(l), 1), load, DoneErr(0), DoneClone(0), DoneDelete(0)];
  }

  lemma TwoLeaders(k: Key, l: Key)
    requires k != l
    ensures var s := Run([Arrive(0, Some(k), 0), Arrive(1, Some(l), 1)]);
            && s.sh == Shared(map[k := 0, l := 1], [PendingRequest(0, None, None, 0), PendingRequest(1, None, None, 0)])
            && s.procs == map[0 := Proc(Leading(0), Some(k), 0), 1 := Proc(Leading(1), Some(l), 1)]
  {
    FoldTwoOf(Step, INITIAL, Arrive(0, Some(k), 0), Arrive(1, Some(l), 1));
  }

  function UpToDelete(s: System, p: nat): System {
    Step(Step(Step(s, DoneErr(p)), DoneClone(p)), DoneDelete(p))
  }

  /** A `done` that has loaded an object goes on to delete the key, and closes nothing so far. */
  lemma TakesKeyAway(s: System, p: nat)
    requires p in s.procs && s.procs[p].phase.Loaded? && s.procs[p].phase.req < |s.sh.reqs|
    ensures var s', ph := UpToDelete(s, p), s.procs[p].phase;
            && s'.sh.storage == s.sh.storage - {ph.key} && |s'.sh.reqs| == |s.sh.reqs|
            && s'.sh.reqs[ph.req].closes == s.sh.reqs[ph.req].closes
            && s'.procs == SetPhase(s, p, Deleted(ph.req, ph.key, ph.out))
  {
    var ph := s.procs[p].phase;
    var s1 := Step(s, DoneErr(p));
    assert s1.procs[p].phase == WroteErr(ph.req, ph.key, ph.out);
    var s2 := Step(s1, DoneClone(p));
    assert s2.procs[p].phase == WroteClone(ph.req, ph.key, ph.out);
  }

  /** Two that have loaded one object: the one that closes last panics. */
  lemma ClosesTwice(s: System, p: nat, q: nat)
    requires p != q && p in s.procs && q in s.procs && s.procs[p].phase.Loaded? && s.procs[q].phase.Loaded?
    requires s.procs[p].phase.req == s.procs[q].phase.req < |s.sh.reqs|
    ensures var t := Step(UpToDelete(UpToDelete(s, p), q), DoneClose(p));
            && q in t.procs && t.procs[q].phase.Deleted?
            && Step(t, DoneClose(q)).procs[q].phase.Panicked?
  {
    TakesKeyAway(s, p);
    TakesKeyAway(UpToDelete(s, p), q);
  }

  lemma BothLoaded(k: Key, l: Key, out: Outcome)
    requires k != l
    ensures var s := Run([Arrive(0, Some(k), 0), Arrive(1, Some(l), 1)] +
                         [DoneLoad(0, Some(l), out), DoneLoad(1, Some(l), out)]);
            && s.procs == map[0 := Proc(Loaded(1, l, out), Some(k), 0), 1 := Proc(Loaded(1, l, out), Some(l), 1)]
            && |s.sh.reqs| == 2
  {
    TwoLeaders(k, l);
    FoldTwo(Step, INITIAL, [Arrive(0, Some(k), 0), Arrive(1, Some(l), 1)],
            DoneLoad(0, Some(l), out), DoneLoad(1, Some(l), out));
  }

  /** The other panic: both requests compute the key of one when they are done, and load its object
      before either deletes it. */
  lemma DoubleCloseExample(k: Key, l: Key, out: Outcome)
    requires k != l
    ensures var events := [Arrive(0, Some(k), 0), Arrive(1, Some(l), 1)] +
                          [DoneLoad(0, Some(l), out), DoneLoad(1, Some(l), out)] +
                          [DoneErr(0), DoneClone(0), DoneDelete(0)] + [DoneErr(1), DoneClone(1), DoneDelete(1)] +
                          [DoneClose(0)];
            && 1 in Run(events).procs && Run(events).procs[1].phase.Deleted?
            && Step(Run(events), DoneClose(1)).procs[1].phase.Panicked?
  {
    BothLoaded(k, l, out);
    var loaded := [Arrive(0, Some(k), 0), Arrive(1, Some(l), 1)] +
                  [DoneLoad(0, Some(l), out), DoneLoad(1, Some(l), out)];
    var first := loaded + [DoneErr(0), DoneClone(0), DoneDelete(0)];
    FoldThree(Step, INITIAL, loaded, DoneErr(0), DoneClone(0), DoneDelete(0));
    FoldThree(Step, INITIAL, first, DoneErr(1), DoneClone(1), DoneDelete(1));
    FoldSnoc(Step, INITIAL, first + [DoneErr(1), DoneClone(1), DoneDelete(1)], DoneClose(0));
    ClosesTwice(Run(loaded), 0, 1);
  }
}
