/**
 * Two reads that cannot happen at once, what the daemon answers and which events are
 * recorded, against a session loop that keeps writing both.
 */
module AgentStatus {
  import opened Options

  datatype Runtime =
    | Starting | Running | Streaming | WaitingForInput | ToolRunning | Interrupted | Failed | Exited | Archived

  datatype Outcome = TurnRunning | TurnSuccess | TurnFailed | TurnInterrupted | TurnUnknown

  datatype Activity = Working | AwaitingInput | Finished | HasFailed | Stopped

  predicate IsBusy(r: Runtime) {
    r.Starting? || r.Running? || r.Streaming? || r.ToolRunning?
  }

  function ByOutcome(lastTurn: Option<Outcome>, unfinished: Activity): Activity {
    match lastTurn
    case Some(TurnSuccess) => Finished
    case Some(TurnFailed) => HasFailed
    case _ => unfinished
  }

  function DeriveActivity(alive: bool, runtime: Option<Runtime>, pending: nat, lastTurn: Option<Outcome>): Activity {
    if runtime == Some(Failed) then HasFailed
    else if !alive then ByOutcome(lastTurn, Stopped)
    else if pending > 0 then AwaitingInput
    else if runtime.Some? && IsBusy(runtime.value) then Working
    else if runtime.None? && lastTurn == Some(TurnRunning) then Working
    else ByOutcome(lastTurn, AwaitingInput)
  }

  // ---------------------------------------------------------------- the writer

  /** One write of the session loop. A turn is busy mark, input, end, ready mark. */
  datatype Write =
    | MarkBusy(busy: Runtime)
    | PersistInput
    | PersistEnd(outcome: Outcome)
    | MarkReady
    | Exit

  datatype Session = Session(alive: bool, runtime: Runtime, turns: seq<Outcome>)

  function LastOutcome(turns: seq<Outcome>): Option<Outcome> {
    if turns == [] then None else Some(turns[|turns| - 1])
  }

  predicate HasOpenTurn(s: Session) {
    LastOutcome(s.turns) == Some(TurnRunning)
  }

  predicate IsIdle(s: Session) {
    s.alive && !IsBusy(s.runtime) && s.runtime != Failed
  }

  /** The order session loops keep: busy before the input, and still busy at the end of the turn. */
  predicate InOrder(s: Session, w: Write) {
    match w
    case MarkBusy(busy) => s.alive && IsBusy(busy)
    case PersistInput => s.alive && IsBusy(s.runtime)
    case PersistEnd(outcome) => s.alive && IsBusy(s.runtime) && HasOpenTurn(s) && outcome != TurnRunning
    case MarkReady => s.alive
    case Exit => s.alive
  }

  /** An input while a turn is open splits it: the older half never records an outcome. */
  function Settled(turns: seq<Outcome>): seq<Outcome> {
    if LastOutcome(turns) == Some(TurnRunning) then turns[|turns| - 1 := TurnUnknown] else turns
  }

  function Apply(s: Session, w: Write): Session {
    match w
    case MarkBusy(busy) => s.(runtime := busy)
    case PersistInput => s.(turns := Settled(s.turns) + [TurnRunning])
    case PersistEnd(outcome) => if s.turns == [] then s else s.(turns := s.turns[|s.turns| - 1 := outcome])
    case MarkReady => s.(runtime := WaitingForInput)
    case Exit => s.(alive := false, runtime := Exited)
  }

  function After(s: Session, writes: seq<Write>): Session
    decreases |writes|
  {
    if writes == [] then s else Apply(After(s, writes[..|writes| - 1]), writes[|writes| - 1])
  }

  /** Every write respects the order, in the state the writes before it left. */
  predicate Ordered(s: Session, writes: seq<Write>)
    decreases |writes|
  {
    writes == []
    || (Ordered(s, writes[..|writes| - 1]) && InOrder(After(s, writes[..|writes| - 1]), writes[|writes| - 1]))
  }

  /** The session says idle while its last turn has no end: a turn that never recorded one. */
  predicate IsAbandoned(s: Session) {
    IsIdle(s) && HasOpenTurn(s)
  }

  // ---------------------------------------------------------------- the reader

  datatype Probe = Probe(alive: bool, runtime: Runtime)

  datatype Read = Read(live: Option<Probe>, turns: seq<Outcome>)

  predicate IdleWithAnOpenTurn(r: Read) {
    LastOutcome(r.turns) == Some(TurnRunning) && r.live.Some?
    && DeriveActivity(r.live.value.alive, Some(r.live.value.runtime), 0, LastOutcome(r.turns)) == AwaitingInput
  }

  /** When the four reads happened, as counts of writes done, and whether the daemon answered the two probes. */
  datatype Looks = Looks(probe1: nat, events1: nat, probe2: nat, events2: nat, answered1: bool, answered2: bool)

  predicate InSequence(t: Looks, writes: seq<Write>) {
    t.probe1 <= t.events1 <= t.probe2 <= t.events2 <= |writes|
  }

  function Look(s: Session, writes: seq<Write>, probe: nat, events: nat, answered: bool): Read
    requires probe <= |writes| && events <= |writes|
  {
    var seen := After(s, writes[..probe]);
    Read(if answered then Some(Probe(seen.alive, seen.runtime)) else None, After(s, writes[..events]).turns)
  }

  function ReadAt(s: Session, writes: seq<Write>, t: Looks): Read
    requires InSequence(t, writes)
  {
    var first := Look(s, writes, t.probe1, t.events1, t.answered1);
    if IdleWithAnOpenTurn(first) then Look(s, writes, t.probe2, t.events2, t.answered2) else first
  }

  /** A session and the loop writing it; every read may find more writes done. */
  class SessionLoop {
    var session: Session
    ghost const start: Session
    ghost var writes: seq<Write>

    constructor (session: Session)
      ensures Valid() && start == session && writes == []
    {
      this.session, this.start, this.writes := session, session, [];
    }

    ghost predicate Valid()
      reads this
    {
      Ordered(start, writes) && session == After(start, writes)
    }

    /** The loop does any number of writes, in order. */
    method Progress()
      requires Valid()
      modifies this
      ensures Valid() && old(writes) <= writes
    {
      var steps: nat := *;
      while steps > 0
        invariant Valid() && old(writes) <= writes
      {
        var w: Write := *;
        if InOrder(session, w) {
          assert (writes + [w])[..|writes|] == writes;
          session := Apply(session, w);
          writes := writes + [w];
        }
        steps := steps - 1;
      }
    }

    method AskDaemon() returns (live: Option<Probe>)
      requires Valid()
      modifies this
      ensures Valid() && old(writes) <= writes
      ensures live.Some? ==> live.value == Probe(session.alive, session.runtime)
    {
      Progress();
      var answers: bool := *;
      live := if answers then Some(Probe(session.alive, session.runtime)) else None;
    }

    method ListEvents() returns (turns: seq<Outcome>)
      requires Valid()
      modifies this
      ensures Valid() && old(writes) <= writes && turns == session.turns
    {
      Progress();
      turns := session.turns;
    }

    method ReadOnce() returns (read: Read, ghost probe: nat, ghost events: nat)
      requires Valid()
      modifies this
      ensures Valid() && old(writes) <= writes
      ensures |old(writes)| <= probe <= events <= |writes|
      ensures forall later :: writes <= later ==> read == Look(start, later, probe, events, read.live.Some?)
    {
      var live := AskDaemon();
      probe := |writes|;
      ghost var atProbe := writes;
      var turns := ListEvents();
      events := |writes|;
      read := Read(live, turns);
      forall later | writes <= later
        ensures read == Look(start, later, probe, events, live.Some?)
      {
        assert later[..probe] == atProbe && later[..events] == writes;
      }
    }

    /** The daemon first, then the events, and both once more if they cannot belong together. */
    method ReadSession() returns (read: Read, ghost t: Looks)
      requires Valid()
      modifies this
      ensures Valid() && old(writes) <= writes
      ensures |old(writes)| <= t.probe1 && InSequence(t, writes)
      ensures read == ReadAt(start, writes, t)
    {
      var first, probe1, events1 := ReadOnce();
      if IdleWithAnOpenTurn(first) {
        var second, probe2, events2 := ReadOnce();
        t := Looks(probe1, events1, probe2, events2, first.live.Some?, second.live.Some?);
        return second, t;
      }
      t := Looks(probe1, events1, events1, events1, first.live.Some?, false);
      return first, t;
    }
  }

  // ---------------------------------------------------------------- when the double look is fooled

  lemma {:induction false} AfterSplit(s: Session, before: seq<Write>, more: seq<Write>)
    ensures After(s, before + more) == After(After(s, before), more)
    ensures Ordered(s, before + more) <==> Ordered(s, before) && Ordered(After(s, before), more)
    decreases |more|
  {
    if more == [] {
      assert before + more == before;
    } else {
      var front := more[..|more| - 1];
      AfterSplit(s, before, front);
      assert (before + more)[..|before + more| - 1] == before + front;
    }
  }

  lemma Segment(s: Session, writes: seq<Write>, a: nat, b: nat)
    requires a <= b <= |writes| && Ordered(s, writes)
    ensures After(s, writes[..b]) == After(After(s, writes[..a]), writes[a..b])
    ensures Ordered(After(s, writes[..a]), writes[a..b])
  {
    assert writes == writes[..b] + writes[b..];
    AfterSplit(s, writes[..b], writes[b..]);
    assert writes[..b] == writes[..a] + writes[a..b];
    AfterSplit(s, writes[..a], writes[a..b]);
  }

  /** Only an input opens a turn, and only an end closes one. */
  lemma {:induction false} OpeningAndClosing(s: Session, writes: seq<Write>)
    requires Ordered(s, writes)
    ensures !HasOpenTurn(s) && HasOpenTurn(After(s, writes)) ==> PersistInput in writes
    ensures HasOpenTurn(s) && !HasOpenTurn(After(s, writes)) ==>
              exists i :: 0 <= i < |writes| && writes[i].PersistEnd?
    decreases |writes|
  {
    if writes != [] {
      var front, last := writes[..|writes| - 1], writes[|writes| - 1];
      OpeningAndClosing(s, front);
      assert writes == front + [last];
      if last.PersistEnd? {
        assert writes[|writes| - 1].PersistEnd?;
      } else if HasOpenTurn(s) && !HasOpenTurn(After(s, front)) {
        var i :| 0 <= i < |front| && front[i].PersistEnd?;
        assert writes[i].PersistEnd?;
      }
    }
  }

  /** The code alone: fooled exactly when both probes say idle and both event reads end in an open turn. */
  lemma FooledExactlyWhen(s: Session, writes: seq<Write>, t: Looks)
    requires InSequence(t, writes)
    ensures IdleWithAnOpenTurn(ReadAt(s, writes, t)) <==>
            && t.answered1 && IsIdle(After(s, writes[..t.probe1])) && HasOpenTurn(After(s, writes[..t.events1]))
            && t.answered2 && IsIdle(After(s, writes[..t.probe2])) && HasOpenTurn(After(s, writes[..t.events2]))
  {
  }

  /** A turn found open at `b` was opened since `a`, if it was not open then. */
  lemma OpenedBetween(s: Session, writes: seq<Write>, a: nat, b: nat)
    requires Ordered(s, writes) && a <= b <= |writes|
    requires !HasOpenTurn(After(s, writes[..a])) && HasOpenTurn(After(s, writes[..b]))
    ensures PersistInput in writes[a..b]
  {
    hide After, Ordered, HasOpenTurn;
    Segment(s, writes, a, b);
    OpeningAndClosing(After(s, writes[..a]), writes[a..b]);
  }

  lemma ClosedBetween(s: Session, writes: seq<Write>, a: nat, b: nat)
    requires Ordered(s, writes) && a <= b <= |writes|
    requires HasOpenTurn(After(s, writes[..a])) && !HasOpenTurn(After(s, writes[..b]))
    ensures exists i :: a <= i < b && writes[i].PersistEnd?
  {
    hide After, Ordered, HasOpenTurn;
    Segment(s, writes, a, b);
    var between := writes[a..b];
    OpeningAndClosing(After(s, writes[..a]), between);
    var i :| 0 <= i < |between| && between[i].PersistEnd?;
    assert writes[a + i].PersistEnd?;
  }

  /**
   * What misleads the reader: a turn abandoned without an end, or one turn opened inside the
   * first look, a turn ended between the looks, and another turn opened inside the second.
   */
  lemma FooledOnlyByTwoTurns(s: Session, writes: seq<Write>, t: Looks)
    requires Ordered(s, writes) && InSequence(t, writes)
    requires IdleWithAnOpenTurn(ReadAt(s, writes, t))
    ensures || IsAbandoned(After(s, writes[..t.probe1])) || IsAbandoned(After(s, writes[..t.probe2]))
            || (&& PersistInput in writes[t.probe1..t.events1]
                && (exists i :: t.events1 <= i < t.probe2 && writes[i].PersistEnd?)
                && PersistInput in writes[t.probe2..t.events2])
  {
    hide After, Ordered, HasOpenTurn, IsIdle;
    FooledExactlyWhen(s, writes, t);
    if !IsAbandoned(After(s, writes[..t.probe1])) && !IsAbandoned(After(s, writes[..t.probe2])) {
      OpenedBetween(s, writes, t.probe1, t.events1);
      ClosedBetween(s, writes, t.events1, t.probe2);
      OpenedBetween(s, writes, t.probe2, t.events2);
    }
  }

  function Openings(writes: seq<Write>): nat {
    if writes == [] then 0
    else Openings(writes[..|writes| - 1]) + if writes[|writes| - 1].PersistInput? then 1 else 0
  }

  lemma {:induction false} OpeningsAdd(a: seq<Write>, b: seq<Write>)
    ensures Openings(a + b) == Openings(a) + Openings(b)
    decreases |b|
  {
    if b == [] {
      assert a + b == a;
    } else {
      OpeningsAdd(a, b[..|b| - 1]);
      assert (a + b)[..|a + b| - 1] == a + b[..|b| - 1];
    }
  }

  lemma {:induction false} OpeningCounts(writes: seq<Write>)
    requires PersistInput in writes
    ensures Openings(writes) >= 1
  {
    var front, last := writes[..|writes| - 1], writes[|writes| - 1];
    assert writes == front + [last];
    if !last.PersistInput? {
      OpeningCounts(front);
    }
  }

  lemma TwoOpenings(writes: seq<Write>, t: Looks)
    requires InSequence(t, writes)
    requires PersistInput in writes[t.probe1..t.events1] && PersistInput in writes[t.probe2..t.events2]
    ensures Openings(writes[t.probe1..t.events2]) >= 2
  {
    var a, b, c := writes[t.probe1..t.events1], writes[t.events1..t.probe2], writes[t.probe2..t.events2];
    OpeningCounts(a);
    OpeningCounts(c);
    assert writes[t.probe1..t.events2] == a + b + c;
    OpeningsAdd(a + b, c);
    OpeningsAdd(a, b);
  }

  /**
   * With at most one turn opening while the read is in progress, and no turn left without an
   * end, a session with an open turn is never reported as waiting for a person; and neither
   * is one whose last recorded turn finished.
   */
  lemma NotFooledByOneTurn(s: Session, writes: seq<Write>, t: Looks)
    requires Ordered(s, writes) && InSequence(t, writes)
    requires Openings(writes[t.probe1..t.events2]) <= 1
    requires !IsAbandoned(After(s, writes[..t.probe1])) && !IsAbandoned(After(s, writes[..t.probe2]))
    ensures var read := ReadAt(s, writes, t);
            read.live.Some? && DeriveActivity(read.live.value.alive, Some(read.live.value.runtime), 0,
                                              LastOutcome(read.turns))
                               == AwaitingInput
            ==> LastOutcome(read.turns) in {None, Some(TurnInterrupted), Some(TurnUnknown)}
  {
    hide Openings, After, Ordered;
    if IdleWithAnOpenTurn(ReadAt(s, writes, t)) {
      FooledOnlyByTwoTurns(s, writes, t);
      TwoOpenings(writes, t);
      assert false;
    }
  }

  /** Two turns are enough: from any idle session, a whole turn and the start of another fool both looks. */
  lemma TwoTurnsCanFool(s: Session)
    requires IsIdle(s) && !HasOpenTurn(s)
    ensures exists writes, t :: Ordered(s, writes) && InSequence(t, writes) && Openings(writes) == 2
                                && IdleWithAnOpenTurn(ReadAt(s, writes, t))
  {
    hide After, Ordered, Openings, DeriveActivity;
    var turn, close := [MarkBusy(Running), PersistInput], [PersistEnd(TurnSuccess), MarkReady];
    var begun := WriteTwo(s, MarkBusy(Running), PersistInput);
    var closed := WriteTwo(begun, PersistEnd(TurnSuccess), MarkReady);
    TwoWrites(s, MarkBusy(Running), PersistInput);
    TwoWrites(begun, PersistEnd(TurnSuccess), MarkReady);
    TwoWrites(closed, MarkBusy(Running), PersistInput);
    NoWrites(s);
    AfterSplit(s, turn, close);
    AfterSplit(s, turn + close, turn);
    OpeningsAdd(turn + close, turn);
    OpeningsAdd(turn, close);
    var writes, t := turn + close + turn, Looks(0, 2, 4, 6, true, true);
    assert writes[..0] == [] && writes[..2] == turn && writes[..4] == turn + close && writes[..6] == writes;
    FooledExactlyWhen(s, writes, t);
  }

  lemma NoWrites(s: Session)
    ensures After(s, []) == s && Ordered(s, [])
  {
  }

  function WriteTwo(s: Session, a: Write, b: Write): Session {
    Apply(Apply(s, a), b)
  }

  lemma TwoWrites(s: Session, a: Write, b: Write)
    ensures After(s, [a, b]) == WriteTwo(s, a, b)
    ensures Ordered(s, [a, b]) <==> InOrder(s, a) && InOrder(Apply(s, a), b)
    ensures Openings([a, b]) == (if a.PersistInput? then 1 else 0) + if b.PersistInput? then 1 else 0
  {
    var one, two := [a], [a, b];
    assert one[..0] == [] && two[..1] == one;
    assert After(s, one) == Apply(After(s, []), a);
    assert Ordered(s, one) <==> InOrder(s, a);
    assert Openings(one) == Openings([]) + if a.PersistInput? then 1 else 0;
  }

  /** Why the daemon is asked first: the other way round, a single turn ending is enough. */
  lemma EventsFirstIsFooledByOneEnd(s: Session)
    requires s.alive && IsBusy(s.runtime) && HasOpenTurn(s)
    ensures var ended := WriteTwo(s, PersistEnd(TurnSuccess), MarkReady);
            && InOrder(s, PersistEnd(TurnSuccess)) && InOrder(Apply(s, PersistEnd(TurnSuccess)), MarkReady)
            && IdleWithAnOpenTurn(Read(Some(Probe(ended.alive, ended.runtime)), s.turns))
            && !IdleWithAnOpenTurn(Read(Some(Probe(ended.alive, ended.runtime)), ended.turns))
  {
  }

  /** Asked first, an idle answer is always followed by events that hold the end of every turn it closed. */
  lemma IdleAnswerSeesTheEnd(s: Session, writes: seq<Write>, probe: nat, events: nat)
    requires probe <= events <= |writes| && Ordered(s, writes)
    requires IsIdle(After(s, writes[..probe])) && !IsAbandoned(After(s, writes[..probe]))
    requires PersistInput !in writes[probe..events]
    ensures After(s, writes[..events]).turns == After(s, writes[..probe]).turns
    ensures !IdleWithAnOpenTurn(Look(s, writes, probe, events, true))
  {
    Segment(s, writes, probe, events);
    NothingOpensNothingChanges(After(s, writes[..probe]), writes[probe..events]);
  }

  lemma {:induction false} NothingOpensNothingChanges(s: Session, writes: seq<Write>)
    requires Ordered(s, writes) && PersistInput !in writes && !HasOpenTurn(s)
    ensures After(s, writes).turns == s.turns
    decreases |writes|
  {
    if writes != [] {
      assert writes == writes[..|writes| - 1] + [writes[|writes| - 1]];
      NothingOpensNothingChanges(s, writes[..|writes| - 1]);
    }
  }
}
