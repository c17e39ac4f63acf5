/** The life of every stored nonce: how it ends, that it ends once, and how many are
    alive. */
module NonceFates {
  import opened Wrappers
  import opened NonceStore
  import opened Certificates
  import opened Validator
  import opened LoginProtocol

  // ---------------------------------------------------- how a life ends

  /** How step ev, taken in st, ends the life of the live nonce e, if it does. A Take
      by a new request for its session consumes it, or finds its key expired; a Put
      sweeps it if it has expired, and else replaces it if it is of its session. */
  function Ends(m: Machine, st: State, ev: Event, e: Entry): (f: Option<Fate>) {
    match ev
    case Take(r, session, _, lingers) =>
      if r in st.requests || session != e.session then None
      else if Found(m.backend, e, st.clock, lingers) then Some(Consumed(r)) else Some(Swept)
    case Put(r) =>
      if !(r in st.requests && st.requests[r].Stamped?) then None
      else if m.backend.SweepsOnPut? && Expired(e.nonce, st.clock, m.backend.ttl) then Some(Swept)
      else if st.requests[r].session == e.session then Some(Replaced)
      else None
    case _ => None
  }

  /** A step ends exactly the lives it should, changes no fate, and a new nonce lives. */
  lemma {:induction false} FateStep(m: Machine, st: State, ev: Event, i: nat)
    requires FatesOk(st) && i <= |st.puts|
    ensures FateOf(Step(m, st, ev), i) ==
      if i == |st.puts| then None
      else if FateOf(st, i).Some? then FateOf(st, i)
      else Ends(m, st, ev, st.puts[i])
  {
    match ev
    case Take(r, session, token, lingers) =>
      if r !in st.requests && i < |st.puts| { TakeFates(m, st, r, session, token, lingers, i); }
    case Put(r) =>
      if r in st.requests && st.requests[r].Stamped? {
        if i < |st.puts| { SweepFates(m.backend, st, i); }
        SweepExtends(m.backend, st);
        InsertFates(Sweep(m.backend, st), r, st.requests[r].session, st.requests[r].nonce, i);
      }
    case _ =>
  }

  /** How the life of the nonce ended in the run: by the first step that ends it. */
  function EndOf(m: Machine, s: State, events: seq<Event>, e: Entry): (f: Option<Fate>) {
    if events == [] then None
    else
      var init := events[..|events| - 1];
      var before := Run(m, s, init);
      if |before.puts| <= e.id then None
      else if EndOf(m, s, init, e).Some? then EndOf(m, s, init, e)
      else Ends(m, before, events[|events| - 1], e)
  }

  lemma {:induction false} PutsGrow(m: Machine, st: State, ev: Event)
    ensures st.puts <= Step(m, st, ev).puts && |Step(m, st, ev).puts| <= |st.puts| + 1
  {
  }

  /** The recorded fate of every stored nonce is the one the run's events gave it. */
  lemma {:induction false} FatesFromEvents(m: Machine, clock: int, cas: seq<Certificate>, events: seq<Event>, i: nat)
    requires i < |Run(m, Initial(clock, cas), events).puts|
    ensures var st := Run(m, Initial(clock, cas), events);
      FateOf(st, i) == EndOf(m, Initial(clock, cas), events, st.puts[i])
  {
    var init, e := events[..|events| - 1], events[|events| - 1];
    var before := Run(m, Initial(clock, cas), init);
    Reachable(m, clock, cas, init);
    Reachable(m, clock, cas, events);
    PutsGrow(m, before, e);
    FateStep(m, before, e, i);
    if i < |before.puts| {
      FatesFromEvents(m, clock, cas, init, i);
    }
  }

  // ---------------------------------------------------- what the fates mean

  /** What the state shows of a fate: the request that took the nonce holds it or was
      turned away; a later nonce of the session took its place; it had expired at a
      later Put, or outlived its key. */
  ghost predicate Explained(m: Machine, st: State, i: nat, f: Fate)
    requires i < |st.puts|
  {
    match f
    case Consumed(r) =>
      r in st.requests && (st.requests[r].Rejected? || (HoldsNonce(st.requests[r]) && st.requests[r].login.entry == st.puts[i]))
    case Replaced => exists j :: i < j < |st.puts| && st.puts[j].session == st.puts[i].session
    case Swept =>
      match m.backend
      case NeverSweeps => false
      case SweepsOnPut(ttl) => exists j :: i < j < |st.puts| && Expired(st.puts[i].nonce, st.puts[j].at, ttl)
      case KeyExpiry(ttl) => st.puts[i].at + ttl <= st.clock
  }

  ghost predicate FatesExplained(m: Machine, st: State)
    requires FatesOk(st)
  {
    forall i :: i in st.fates ==> Explained(m, st, i, st.fates[i])
  }

  lemma {:induction false} ExplainedKept(m: Machine, st: State, ev: Event, i: nat, f: Fate)
    requires i < |st.puts| && Explained(m, st, i, f)
    ensures i < |Step(m, st, ev).puts| && Explained(m, Step(m, st, ev), i, f)
  {
    PutsGrow(m, st, ev);
  }

  lemma {:induction false} ExplainedTake(m: Machine, st: State, r: nat, session: string, token: AuthToken, lingers: bool, i: nat)
    requires FatesOk(st) && r !in st.requests && i < |st.puts| && FateOf(st, i).None? && st.puts[i].session == session
    ensures var st' := TakeNonce(m, st, r, session, token, lingers);
      Explained(m, st', i, if Found(m.backend, st.puts[i], st.clock, lingers) then Consumed(r) else Swept)
  {
    assert st.entries[session] == st.puts[i];
  }

  lemma {:induction false} ExplainedPut(m: Machine, st: State, r: nat, session: string, nonce: ChallengeNonce, i: nat)
    requires i < |st.puts|
    ensures var st' := PutNonce(m, st, r, session, nonce);
      && (m.backend.SweepsOnPut? && Expired(st.puts[i].nonce, st.clock, m.backend.ttl) ==> Explained(m, st', i, Swept))
      && (st.puts[i].session == session ==> Explained(m, st', i, Replaced))
  {
    var st', j := PutNonce(m, st, r, session, nonce), |st.puts|;
    assert st'.puts[j].session == session && st'.puts[j].at == st.clock && st'.puts[i] == st.puts[i];
  }

  lemma {:induction false} ExplainedNew(m: Machine, st: State, ev: Event, i: nat)
    requires FatesOk(st) && i < |st.puts| && FateOf(st, i).None? && Ends(m, st, ev, st.puts[i]).Some?
    ensures i < |Step(m, st, ev).puts| && Explained(m, Step(m, st, ev), i, Ends(m, st, ev, st.puts[i]).value)
  {
    if ev.Take? {
      ExplainedTake(m, st, ev.request, ev.session, ev.token, ev.lingers, i);
    } else {
      ExplainedPut(m, st, ev.request, st.requests[ev.request].session, st.requests[ev.request].nonce, i);
    }
  }

  lemma {:induction false} ExplainedRun(m: Machine, clock: int, cas: seq<Certificate>, events: seq<Event>)
    ensures FatesOk(Run(m, Initial(clock, cas), events)) && FatesExplained(m, Run(m, Initial(clock, cas), events))
  {
    Reachable(m, clock, cas, events);
    if events != [] {
      var init, e := events[..|events| - 1], events[|events| - 1];
      var before, st := Run(m, Initial(clock, cas), init), Run(m, Initial(clock, cas), events);
      ExplainedRun(m, clock, cas, init);
      PutsGrow(m, before, e);
      forall i | i in st.fates ensures Explained(m, st, i, st.fates[i]) {
        FateStep(m, before, e, i);
        if i in before.fates {
          ExplainedKept(m, before, e, i, st.fates[i]);
        } else {
          ExplainedNew(m, before, e, i);
        }
      }
    }
  }

  // ---------------------------------------------------- conservation

  function LiveIds(st: State): (ids: set<nat>) {
    set k | k in st.entries :: st.entries[k].id
  }

  function ConsumedIds(st: State): (ids: set<nat>) {
    set i | i in st.fates && st.fates[i].Consumed?
  }

  function ReplacedIds(st: State): (ids: set<nat>) {
    set i | i in st.fates && st.fates[i].Replaced?
  }

  function SweptIds(st: State): (ids: set<nat>) {
    set i | i in st.fates && st.fates[i].Swept?
  }

  function UpTo(n: nat): (ids: set<nat>)
    ensures |ids| == n
    ensures forall i :: i in ids <==> 0 <= i < n
  {
    if n == 0 then {} else UpTo(n - 1) + {n - 1}
  }

  lemma {:induction false} LiveCount(st: State, ks: set<string>)
    requires FatesOk(st) && ks <= st.entries.Keys
    ensures |set k | k in ks :: st.entries[k].id| == |ks|
  {
    if ks != {} {
      var k :| k in ks;
      var rest := ks - {k};
      LiveCount(st, rest);
      DistinctIds(st, k);
      assert (set s | s in ks :: st.entries[s].id) == (set s | s in rest :: st.entries[s].id) + {st.entries[k].id};
    }
  }

  lemma {:induction false} LiveOrFated(st: State)
    requires FatesOk(st)
    ensures LiveIds(st) !! st.fates.Keys
    ensures LiveIds(st) + st.fates.Keys == UpTo(|st.puts|)
  {
  }

  lemma {:induction false} LiveCardinality(st: State)
    requires FatesOk(st)
    ensures |LiveIds(st)| == |st.entries|
  {
    LiveCount(st, st.entries.Keys);
    assert LiveIds(st) == set k | k in st.entries.Keys :: st.entries[k].id;
  }

  lemma {:induction false} FateKinds(st: State)
    ensures ConsumedIds(st) !! ReplacedIds(st) !! SweptIds(st)
    ensures ConsumedIds(st) + ReplacedIds(st) + SweptIds(st) == st.fates.Keys
  {
  }

  lemma {:induction false} FourParts(l: set<nat>, c: set<nat>, r: set<nat>, s: set<nat>, n: nat)
    requires c !! r !! s && l !! (c + r + s) && l + (c + r + s) == UpTo(n)
    ensures l + c + r + s == UpTo(n) && l !! c !! r !! s
    ensures |l| + |c| + |r| + |s| == n
  {
  }

  /** The fates of all nonces ever stored partition them, and the counts add up. */
  ghost predicate Conserved(st: State) {
    && LiveIds(st) + ConsumedIds(st) + ReplacedIds(st) + SweptIds(st) == UpTo(|st.puts|)
    && LiveIds(st) !! ConsumedIds(st) !! ReplacedIds(st) !! SweptIds(st)
    && |st.entries| + |ConsumedIds(st)| + |ReplacedIds(st)| + |SweptIds(st)| == |st.puts|
    && forall k :: k in st.entries ==> st.entries[k].session == k
  }

  lemma {:induction false} FatesConserve(st: State)
    requires FatesOk(st)
    ensures Conserved(st)
  {
    LiveOrFated(st);
    LiveCardinality(st);
    FateKinds(st);
    FourParts(LiveIds(st), ConsumedIds(st), ReplacedIds(st), SweptIds(st), |st.puts|);
  }

  /** Every nonce ever stored is live, consumed, replaced or swept, exactly one of
      them: as the first step that ends its life decides, and live if none does. The
      four counts add up to the number of puts, a session has at most one live nonce,
      and each fate shows in the state. */
  lemma {:induction false} Conservation(m: Machine, clock: int, cas: seq<Certificate>, events: seq<Event>)
    ensures var st := Run(m, Initial(clock, cas), events);
      && Conserved(st)
      && FatesOk(st) && FatesExplained(m, st)
      && forall i :: 0 <= i < |st.puts| ==>
           && FateOf(st, i) == EndOf(m, Initial(clock, cas), events, st.puts[i])
           && (i in LiveIds(st) <==> EndOf(m, Initial(clock, cas), events, st.puts[i]).None?)
  {
    var st := Run(m, Initial(clock, cas), events);
    ExplainedRun(m, clock, cas, events);
    FatesConserve(st);
    LiveOrFated(st);
    forall i | 0 <= i < |st.puts|
      ensures FateOf(st, i) == EndOf(m, Initial(clock, cas), events, st.puts[i])
      ensures i in LiveIds(st) <==> FateOf(st, i).None?
    {
      FatesFromEvents(m, clock, cas, events, i);
      assert i in UpTo(|st.puts|);
    }
  }

  /** The stored nonces no older than the sweep lifetime at a given moment. */
  function RecentIds(st: State, at: int, ttl: int): (ids: set<nat>) {
    set i | 0 <= i < |st.puts| && !Expired(st.puts[i].nonce, at, ttl)
  }

  lemma {:induction false} SubsetCount(a: set<nat>, b: set<nat>)
    requires a <= b
    ensures |a| <= |b|
  {
    assert b == a + (b - a);
  }

  lemma {:induction false} LiveAreRecent(m: Machine, st: State)
    requires FatesOk(st) && SweepOk(m, st) && m.backend.SweepsOnPut? && st.puts != []
    ensures LiveIds(st) <= RecentIds(st, st.puts[|st.puts| - 1].at, m.backend.ttl) + {|st.puts| - 1}
  {
    forall k | k in st.entries
      ensures st.entries[k].id in RecentIds(st, st.puts[|st.puts| - 1].at, m.backend.ttl) + {|st.puts| - 1}
    {
      assert Known(st, st.entries[k]);
    }
  }

  function LiveLimit(st: State, ttl: int): (n: nat) {
    if st.puts == [] then 0 else 1 + |RecentIds(st, st.puts[|st.puts| - 1].at, ttl)|
  }

  lemma {:induction false} LiveWithinLimit(m: Machine, st: State)
    requires FatesOk(st) && SweepOk(m, st) && m.backend.SweepsOnPut?
    ensures |st.entries| <= LiveLimit(st, m.backend.ttl)
  {
    LiveCardinality(st);
    if st.puts == [] {
      LiveOrFated(st);
      SubsetCount(LiveIds(st), UpTo(0));
    } else {
      LiveAreRecent(m, st);
      SubsetCount(LiveIds(st), RecentIds(st, st.puts[|st.puts| - 1].at, m.backend.ttl) + {|st.puts| - 1});
    }
  }

  /** The in-memory store holds at most one nonce more than those issued within the
      lifetime before its last Put. */
  lemma {:induction false} LiveBound(m: Machine, clock: int, cas: seq<Certificate>, events: seq<Event>)
    requires m.backend.SweepsOnPut?
    ensures var st := Run(m, Initial(clock, cas), events); |st.entries| <= LiveLimit(st, m.backend.ttl)
  {
    Reachable(m, clock, cas, events);
    LiveWithinLimit(m, Run(m, Initial(clock, cas), events));
  }
}
