/**
 * The human-in-the-loop cards: clicks, the Apply-all loop, deferred microtasks, effects and status
 * changes from outside, as atomic steps over one set of pending cards and one flag.
 */
module CardProtocol {
  import opened Wrappers

  datatype Status = InProgress | Executing | Complete

  type CardId = nat

  /**
   * One mounted card. `effect` is the status its registration effect last ran for, `registered` says
   * that this run registered it and its cleanup is still due, `deregister` that the token is held.
   */
  datatype Card = Card(mounted: bool, status: Status, effect: Option<Status>, registered: bool, deregister: bool,
                       applied: bool, applies: nat, rejects: nat)

  /**
   * The Apply-all handler: firing a snapshot card by card; then waiting since `start`, with the set
   * found empty since `since`, and asleep since `asleep`; then done.
   */
  datatype Loop = Idle | Kicking(rest: seq<CardId>) | Draining(start: int, since: Option<int>, asleep: int)

  datatype State = State(cards: map<CardId, Card>, pending: set<CardId>, autoApplying: bool,
                         microtasks: seq<CardId>, loop: Loop)

  datatype Step =
    | Mount(id: CardId, initial: Status)
    | SetStatus(id: CardId, status: Status)
    | RunEffect(id: CardId)
    | Unmount(id: CardId)
    | ClickApply(id: CardId)
    | ClickReject(id: CardId)
    | RunMicrotask
    | StartAll(order: seq<CardId>)
    | KickNext(now: int)
    | Poll(now: int)

  const STABLE_EMPTY_MS := 1_500
  const MAX_TOTAL_MS := 30_000
  const POLL_MS := 200

  const START := State(map[], {}, false, [], Idle)

  predicate Mounted(s: State, c: CardId) {
    c in s.cards && s.cards[c].mounted
  }

  /** Runs a card's handler unless it has been decided; it leaves the pending set at once. */
  function Decide(s: State, c: CardId, accept: bool): State {
    if c !in s.cards || s.cards[c].applied then s
    else
      var card := s.cards[c];
      s.(cards := s.cards[c := card.(applied := true, deregister := false,
                                     applies := card.applies + (if accept then 1 else 0),
                                     rejects := card.rejects + (if accept then 0 else 1))],
         pending := if card.deregister then s.pending - {c} else s.pending)
  }

  /** The effect's cleanup. */
  function Cleanup(s: State, c: CardId): State
    requires c in s.cards
  {
    if !s.cards[c].registered then s
    else s.(cards := s.cards[c := s.cards[c].(registered := false)], pending := s.pending - {c})
  }

  /** Registration; while the flag is on, a microtask is queued that will apply the card. */
  function Register(s: State, c: CardId): State
    requires c in s.cards
  {
    s.(cards := s.cards[c := s.cards[c].(registered := true, deregister := true)],
       pending := s.pending + {c},
       microtasks := if s.autoApplying then s.microtasks + [c] else s.microtasks)
  }

  /** The registration effect: it runs again only when the status has changed since its last run. */
  function Effect(s: State, c: CardId): State
    requires c in s.cards
  {
    var status := s.cards[c].status;
    if s.cards[c].effect == Some(status) then s
    else
      var clean := Cleanup(s, c);
      var ready := clean.(cards := clean.cards[c := clean.cards[c].(effect := Some(status))]);
      if status.Executing? && !ready.cards[c].applied then Register(ready, c) else ready
  }

  predicate Enumerates(order: seq<CardId>, cards: set<CardId>) {
    (forall i :: 0 <= i < |order| ==> order[i] in cards) && (forall c :: c in cards ==> c in order)
  }

  /** The handler begins to wait. */
  function Waiting(empty: bool, now: int): Loop {
    Draining(now, if empty then Some(now) else None, now)
  }

  /** One turn of the waiting loop, and the test before the next one. */
  function Polled(loop: Loop, empty: bool, now: int): Loop
    requires loop.Draining?
  {
    if empty && loop.since.Some? && now - loop.since.value > STABLE_EMPTY_MS then Idle
    else if now - loop.start >= MAX_TOTAL_MS then Idle
    else Draining(loop.start, if !empty then None else if loop.since.None? then Some(now) else loop.since, now)
  }

  /**
   * The handler goes on to wait, or wakes up from a wait: in a turn of its own, after all queued
   * microtasks, and not before its timer is due.
   */
  predicate Wakes(s: State, now: int) {
    && s.microtasks == []
    && match s.loop
       case Idle => false
       case Kicking(rest) => rest == []
       case Draining(_, _, asleep) => now >= asleep + POLL_MS
  }

  function Next(s: State, step: Step): State {
    match step
    case Mount(c, status) =>
      if c in s.cards then s
      else s.(cards := s.cards[c := Card(true, status, None, false, false, false, 0, 0)])
    case SetStatus(c, status) =>
      if !Mounted(s, c) then s else s.(cards := s.cards[c := s.cards[c].(status := status)])
    case RunEffect(c) => if !Mounted(s, c) then s else Effect(s, c)
    case Unmount(c) =>
      if !Mounted(s, c) then s
      else
        var clean := Cleanup(s, c);
        clean.(cards := clean.cards[c := clean.cards[c].(mounted := false)])
    case ClickApply(c) => if Mounted(s, c) && s.cards[c].status.Executing? then Decide(s, c, true) else s
    case ClickReject(c) => if Mounted(s, c) && s.cards[c].status.Executing? then Decide(s, c, false) else s
    case RunMicrotask =>
      if s.microtasks == [] then s
      else
        var c, popped := s.microtasks[0], s.(microtasks := s.microtasks[1..]);
        if s.autoApplying && c in s.pending then Decide(popped, c, true) else popped
    case StartAll(order) =>
      if s.loop.Idle? && Enumerates(order, s.pending) then s.(autoApplying := true, loop := Kicking(order)) else s
    case KickNext(now) =>
      if !s.loop.Kicking? then s
      else if s.loop.rest != [] then Decide(s.(loop := Kicking(s.loop.rest[1..])), s.loop.rest[0], true)
      else if !Wakes(s, now) then s
      else s.(loop := Waiting(s.pending == {}, now))
    case Poll(now) =>
      if !s.loop.Draining? || !Wakes(s, now) then s
      else
        var loop := Polled(s.loop, s.pending == {}, now);
        s.(loop := loop, autoApplying := s.autoApplying && !loop.Idle?)
  }

  function After(steps: seq<Step>): State {
    if steps == [] then START else Next(After(steps[..|steps| - 1]), steps[|steps| - 1])
  }

  // ---- invariants ----

  ghost predicate CardOk(s: State, c: CardId)
    requires c in s.cards
  {
    var card := s.cards[c];
    && card.applies + card.rejects == (if card.applied then 1 else 0)
    && (c in s.pending <==> card.registered && !card.applied)
    && (card.registered && !card.applied ==> card.deregister)
    && (card.registered ==> card.mounted && card.effect == Some(Executing))
    && (card.mounted && card.effect == Some(Executing) ==> card.registered || card.applied)
  }

  /** While Apply-all is on, whatever is pending is about to be fired. */
  ghost predicate Covered(s: State) {
    s.autoApplying ==> forall c :: c in s.pending ==>
      c in s.microtasks || (s.loop.Kicking? && c in s.loop.rest)
  }

  /** The waiting phase has found the set empty from its start on, and not yet for a stable window. */
  predicate EmptySoFar(loop: Loop) {
    loop.Draining? ==>
      loop.since == Some(loop.start) && 0 <= loop.asleep - loop.start <= STABLE_EMPTY_MS
  }

  ghost predicate Ok(s: State) {
    && (forall c :: c in s.cards ==> CardOk(s, c))
    && (forall c :: c in s.pending ==> c in s.cards)
    && (s.autoApplying <==> !s.loop.Idle?)
    && EmptySoFar(s.loop)
    && Covered(s)
  }

  lemma DecideOk(s: State, c: CardId, accept: bool)
    requires (forall d :: d in s.cards ==> CardOk(s, d)) && (forall d :: d in s.pending ==> d in s.cards)
    ensures var t := Decide(s, c, accept);
            && (forall d :: d in t.cards ==> CardOk(t, d))
            && t.pending == s.pending - {c}
            && t.cards.Keys == s.cards.Keys
  {
    var t := Decide(s, c, accept);
    forall d | d in t.cards ensures CardOk(t, d) {
      assert CardOk(s, d);
    }
    if c in s.cards {
      assert CardOk(s, c);
    }
  }

  lemma EffectOk(s: State, c: CardId)
    requires Ok(s) && Mounted(s, c)
    ensures Ok(Effect(s, c))
  {
    var t := Effect(s, c);
    assert CardOk(s, c);
    forall d | d in t.cards ensures CardOk(t, d) {
      assert CardOk(s, d);
    }
    forall d | d in t.pending && t.autoApplying ensures d in t.microtasks || (t.loop.Kicking? && d in t.loop.rest) {
      if d in s.pending && d in s.microtasks {
        assert t.microtasks[..|s.microtasks|] == s.microtasks;
      }
    }
  }

  lemma NextOk(s: State, step: Step)
    requires Ok(s)
    ensures Ok(Next(s, step))
  {
    match step
    case RunEffect(c) =>
      if Mounted(s, c) {
        EffectOk(s, c);
      }
    case ClickApply(c) => DecideOk(s, c, true);
    case ClickReject(c) => DecideOk(s, c, false);
    case RunMicrotask => MicrotaskOk(s);
    case KickNext(now) => KickOk(s, now);
    case _ => OutsideOk(s, step);
  }

  lemma OutsideOk(s: State, step: Step)
    requires Ok(s) && (step.Mount? || step.SetStatus? || step.Unmount? || step.StartAll? || step.Poll?)
    ensures Ok(Next(s, step))
  {
    var t := Next(s, step);
    forall d | d in t.cards ensures CardOk(t, d) {
      if d in s.cards {
        assert CardOk(s, d);
      }
    }
  }

  lemma MicrotaskOk(s: State)
    requires Ok(s)
    ensures Ok(Next(s, RunMicrotask))
  {
    if s.microtasks != [] {
      var popped := s.(microtasks := s.microtasks[1..]);
      forall d | d in popped.cards ensures CardOk(popped, d) {
        assert CardOk(s, d);
      }
      DecideOk(popped, s.microtasks[0], true);
      assert s.microtasks == [s.microtasks[0]] + s.microtasks[1..];
    }
  }

  lemma KickOk(s: State, now: int)
    requires Ok(s)
    ensures Ok(Next(s, KickNext(now)))
  {
    if s.loop.Kicking? && s.loop.rest != [] {
      var moved := s.(loop := Kicking(s.loop.rest[1..]));
      forall d | d in moved.cards ensures CardOk(moved, d) {
        assert CardOk(s, d);
      }
      DecideOk(moved, s.loop.rest[0], true);
      assert s.loop.rest == [s.loop.rest[0]] + s.loop.rest[1..];
    } else {
      var t := Next(s, KickNext(now));
      forall d | d in t.cards ensures CardOk(t, d) {
        assert CardOk(s, d);
      }
    }
  }

  lemma {:induction false} RunOk(steps: seq<Step>)
    ensures Ok(After(steps))
  {
    if steps != [] {
      RunOk(steps[..|steps| - 1]);
      NextOk(After(steps[..|steps| - 1]), steps[|steps| - 1]);
    }
  }

  // ---- what every interleaving guarantees ----

  /** Each mounted card runs at most one of its two handlers, and at most once. */
  lemma DecidedAtMostOnce(steps: seq<Step>, c: CardId)
    requires c in After(steps).cards
    ensures After(steps).cards[c].applies + After(steps).cards[c].rejects
         == (if After(steps).cards[c].applied then 1 else 0)
  {
    RunOk(steps);
    assert CardOk(After(steps), c);
  }

  /** The step makes the user, or Apply-all, accept this card. */
  predicate Accepts(s: State, step: Step, c: CardId) {
    match step
    case ClickApply(d) => d == c && Mounted(s, c) && s.cards[c].status.Executing?
    case RunMicrotask => s.microtasks != [] && s.microtasks[0] == c && s.autoApplying && c in s.pending
    case KickNext(_) => s.loop.Kicking? && s.loop.rest != [] && s.loop.rest[0] == c && c in s.cards
    case _ => false
  }

  /** The step makes the user reject this card. */
  predicate Rejects(s: State, step: Step, c: CardId) {
    step == ClickReject(c) && Mounted(s, c) && s.cards[c].status.Executing?
  }

  ghost predicate AcceptsAt(steps: seq<Step>, i: nat, c: CardId)
    requires i < |steps|
  {
    Accepts(After(steps[..i]), steps[i], c)
  }

  ghost predicate RejectsAt(steps: seq<Step>, i: nat, c: CardId)
    requires i < |steps|
  {
    Rejects(After(steps[..i]), steps[i], c)
  }

  /** None of the first n steps accepts or rejects this card. */
  ghost predicate Unseen(steps: seq<Step>, n: nat, c: CardId)
    requires n <= |steps|
  {
    forall j :: 0 <= j < n ==> !AcceptsAt(steps, j, c) && !RejectsAt(steps, j, c)
  }

  /** The first step that accepts or rejects this card accepts it. */
  ghost predicate AcceptedFirst(steps: seq<Step>, c: CardId) {
    exists i :: 0 <= i < |steps| && AcceptsAt(steps, i, c) && Unseen(steps, i, c)
  }

  /** The first step that accepts or rejects this card rejects it. */
  ghost predicate RejectedFirst(steps: seq<Step>, c: CardId) {
    exists i :: 0 <= i < |steps| && RejectsAt(steps, i, c) && Unseen(steps, i, c)
  }

  datatype Verdict = Undecided | Accepted | Rejected

  function VerdictOf(s: State, c: CardId): Verdict {
    if c !in s.cards || !s.cards[c].applied then Undecided
    else if s.cards[c].applies == 1 then Accepted
    else Rejected
  }

  /** The verdict on a card stands; an undecided card gets one from a step that accepts or rejects it. */
  lemma VerdictAfter(s: State, step: Step, c: CardId)
    requires Ok(s)
    ensures VerdictOf(Next(s, step), c) ==
      if !VerdictOf(s, c).Undecided? then VerdictOf(s, c)
      else if Accepts(s, step, c) then Accepted
      else if Rejects(s, step, c) then Rejected
      else Undecided
  {
    if c in s.cards {
      assert CardOk(s, c);
    }
  }

  /** What the first steps of a run do does not depend on its last one. */
  lemma SeenBefore(init: seq<Step>, step: Step, c: CardId)
    ensures forall j :: 0 <= j < |init| ==>
      && (AcceptsAt(init + [step], j, c) <==> AcceptsAt(init, j, c))
      && (RejectsAt(init + [step], j, c) <==> RejectsAt(init, j, c))
    ensures forall n :: 0 <= n <= |init| ==> (Unseen(init + [step], n, c) <==> Unseen(init, n, c))
  {
    forall j | 0 <= j < |init|
      ensures AcceptsAt(init + [step], j, c) <==> AcceptsAt(init, j, c)
      ensures RejectsAt(init + [step], j, c) <==> RejectsAt(init, j, c)
    {
      assert (init + [step])[..j] == init[..j];
    }
  }

  lemma FirstSoFar(init: seq<Step>, step: Step, c: CardId)
    ensures var steps, unseen := init + [step], Unseen(init, |init|, c);
            && (AcceptedFirst(steps, c) <==> AcceptedFirst(init, c) || (unseen && Accepts(After(init), step, c)))
            && (RejectedFirst(steps, c) <==> RejectedFirst(init, c) || (unseen && Rejects(After(init), step, c)))
            && (Unseen(steps, |steps|, c) <==>
                  unseen && !Accepts(After(init), step, c) && !Rejects(After(init), step, c))
  {
    var steps := init + [step];
    SeenBefore(init, step, c);
    assert steps[..|init|] == init && steps[|init|] == step;
    assert AcceptsAt(steps, |init|, c) <==> Accepts(After(init), step, c);
    assert RejectsAt(steps, |init|, c) <==> Rejects(After(init), step, c);
    if i :| 0 <= i < |init| && AcceptsAt(init, i, c) && Unseen(init, i, c) {
      assert AcceptsAt(steps, i, c) && Unseen(steps, i, c);
    }
    if i :| 0 <= i < |init| && RejectsAt(init, i, c) && Unseen(init, i, c) {
      assert RejectsAt(steps, i, c) && Unseen(steps, i, c);
    }
  }

  /** The verdict on a card is what the first step that accepted or rejected it said. */
  ghost predicate VerdictIsFirst(steps: seq<Step>, c: CardId, verdict: Verdict) {
    && (verdict.Undecided? <==> Unseen(steps, |steps|, c))
    && (verdict.Accepted? <==> AcceptedFirst(steps, c))
    && (verdict.Rejected? <==> RejectedFirst(steps, c))
  }

  lemma VerdictStays(init: seq<Step>, step: Step, c: CardId, before: Verdict, after: Verdict)
    requires VerdictIsFirst(init, c, before)
    requires after == if !before.Undecided? then before
                      else if Accepts(After(init), step, c) then Accepted
                      else if Rejects(After(init), step, c) then Rejected
                      else Undecided
    requires !(Accepts(After(init), step, c) && Rejects(After(init), step, c))
    ensures VerdictIsFirst(init + [step], c, after)
  {
    FirstSoFar(init, step, c);
  }

  lemma {:induction false} VerdictIsKnown(steps: seq<Step>, c: CardId)
    ensures VerdictIsFirst(steps, c, VerdictOf(After(steps), c))
  {
    if steps != [] {
      var init, step := steps[..|steps| - 1], steps[|steps| - 1];
      VerdictIsKnown(init, c);
      RunOk(init);
      VerdictAfter(After(init), step, c);
      VerdictStays(init, step, c, VerdictOf(After(init), c), VerdictOf(After(steps), c));
      assert steps == init + [step];
    }
  }

  /**
   * In every run the first thing that accepts or rejects a card decides it: what the user clicks, the
   * microtask of a pending card under Apply-all, or the snapshot loop.
   */
  lemma FirstDecisionWins(steps: seq<Step>, c: CardId)
    requires c in After(steps).cards
    ensures After(steps).cards[c].applies == 1 <==> AcceptedFirst(steps, c)
    ensures After(steps).cards[c].rejects == 1 <==> RejectedFirst(steps, c)
    ensures After(steps).cards[c].applied <==> AcceptedFirst(steps, c) || RejectedFirst(steps, c)
  {
    VerdictIsKnown(steps, c);
    RunOk(steps);
    assert CardOk(After(steps), c);
  }

  /** A microtask applies its card exactly when the flag is still on and the card still pending. */
  lemma MicrotaskFiresExactly(s: State)
    requires Ok(s) && s.microtasks != []
    ensures var c, t := s.microtasks[0], Next(s, RunMicrotask);
            && t.microtasks == s.microtasks[1..]
            && (s.autoApplying && c in s.pending ==>
                  c in s.cards && !s.cards[c].applied && t.cards[c].applies == s.cards[c].applies + 1)
            && (!(s.autoApplying && c in s.pending) ==> t.cards == s.cards && t.pending == s.pending)
  {
    if s.microtasks[0] in s.pending {
      assert CardOk(s, s.microtasks[0]);
    }
  }

  /** No card's status has changed since its effect ran. */
  ghost predicate Flushed(s: State) {
    forall c :: Mounted(s, c) ==> s.cards[c].effect == Some(s.cards[c].status)
  }

  /** What comes from outside: a card appears, its status is set, and it goes, and then is pending no more. */
  lemma OutsideSteps(steps: seq<Step>, c: CardId, status: Status)
    ensures c !in After(steps).cards ==>
      var t := Next(After(steps), Mount(c, status));
      Mounted(t, c) && t.cards[c].status == status && !t.cards[c].applied && c !in t.pending
    ensures Mounted(After(steps), c) ==>
      var t, u := Next(After(steps), SetStatus(c, status)), Next(After(steps), Unmount(c));
      && t == After(steps).(cards := t.cards) && t.cards == After(steps).cards[c := t.cards[c]]
      && t.cards[c] == After(steps).cards[c].(status := status)
      && !Mounted(u, c) && c in u.cards && c !in u.pending && u.cards[c].applied == After(steps).cards[c].applied
  {
    RunOk(steps);
    if c in After(steps).cards {
      assert CardOk(After(steps), c);
    }
  }

  /** Once its effect has run, a mounted card is pending exactly when it is executing and undecided. */
  lemma PendingAfterEffect(steps: seq<Step>, c: CardId)
    requires Mounted(After(steps), c)
    ensures var card, t := After(steps).cards[c], Next(After(steps), RunEffect(c));
            && (c in t.pending <==> card.status.Executing? && !card.applied)
            && c in t.cards && t.cards[c].effect == Some(card.status) && t.cards[c].status == card.status
  {
    RunOk(steps);
    EffectOk(After(steps), c);
    assert CardOk(After(steps), c) && CardOk(Effect(After(steps), c), c);
  }

  /** Once effects have run, the pending set is exactly the mounted, executing, undecided cards. */
  lemma PendingExactly(steps: seq<Step>, c: CardId)
    requires Flushed(After(steps))
    ensures c in After(steps).pending <==>
      Mounted(After(steps), c) && After(steps).cards[c].status.Executing? && !After(steps).cards[c].applied
  {
    RunOk(steps);
    var s := After(steps);
    if c in s.cards {
      assert CardOk(s, c);
    }
  }

  /**
   * While Apply-all is on, a card that registers is fired by its microtask unless it left the pending
   * set first: with no microtask queued, only snapshot cards not yet reached can be pending.
   */
  lemma NewCardsAreFired(steps: seq<Step>)
    requires After(steps).autoApplying && After(steps).microtasks == []
    ensures forall c :: c in After(steps).pending ==> After(steps).loop.Kicking? && c in After(steps).loop.rest
  {
    RunOk(steps);
  }

  /**
   * The snapshot loop does not look at the pending set again. With effects flushed, the undecided card
   * it is about to fire is still mounted and executing if and only if it is still pending.
   */
  lemma KickIsLiveIffPending(steps: seq<Step>, now: int)
    requires var s := After(steps);
             Flushed(s) && s.loop.Kicking? && s.loop.rest != [] && s.loop.rest[0] in s.cards
             && !s.cards[s.loop.rest[0]].applied
    ensures var s, t, c := After(steps), After(steps + [KickNext(now)]), After(steps).loop.rest[0];
            && t.cards[c].applies == 1
            && (Mounted(s, c) && s.cards[c].status.Executing? <==> c in s.pending)
  {
    var s, c := After(steps), After(steps).loop.rest[0];
    assert (steps + [KickNext(now)])[..|steps|] == steps;
    RunOk(steps);
    assert CardOk(s, c);
    PendingExactly(steps, c);
  }

  lemma Extend(run: seq<Step>, step: Step) returns (longer: seq<Step>)
    ensures longer == run + [step] && After(longer) == Next(After(run), step)
  {
    longer := run + [step];
    assert longer[..|longer| - 1] == run;
  }

  /** Two cards execute and are registered. */
  lemma TwoPending() returns (run: seq<Step>)
    ensures var undecided := Card(true, Executing, Some(Executing), true, true, false, 0, 0);
            After(run) == State(map[0 := undecided, 1 := undecided], {0, 1}, false, [], Idle)
  {
    run := Extend([], Mount(0, Executing));
    run := Extend(run, Mount(1, Executing));
    run := Extend(run, RunEffect(0));
    run := Extend(run, RunEffect(1));
  }

  /** Apply-all has fired the first of two cards, and would fire the second next. */
  lemma FirstFired() returns (run: seq<Step>)
    ensures var undecided := Card(true, Executing, Some(Executing), true, true, false, 0, 0);
            After(run) == State(map[0 := undecided.(applied := true, deregister := false, applies := 1),
                                    1 := undecided], {1}, true, [], Kicking([1]))
  {
    var waiting := TwoPending();
    assert [0, 1][0] == 0 && [0, 1][1] == 1 && [0, 1][1..] == [1];
    run := Extend(waiting, StartAll([0, 1]));
    assert After(run) == After(waiting).(autoApplying := true, loop := Kicking([0, 1]));
    run := Extend(run, KickNext(0));
  }

  /**
   * A run in which the second card of the snapshot is demoted, and has left the pending set, before
   * the loop reaches it: the loop runs its handler while it has nothing to respond with.
   */
  lemma KickFiresDemotedCard() returns (run: seq<Step>)
    ensures Flushed(After(run)) && After(run).pending == {} && 1 in After(run).cards
    ensures After(run).cards[1].status == InProgress && !After(run).cards[1].applied
    ensures 1 in After(run + [KickNext(80)]).cards && After(run + [KickNext(80)]).cards[1].applies == 1
  {
    run := FirstFired();
    run := Extend(run, SetStatus(1, InProgress));
    run := Extend(run, RunEffect(1));
    var fired := Extend(run, KickNext(80));
  }

  // ---- Apply-all ends ----

  /**
   * Every poll finds the set empty, and ends Apply-all if and only if the waiting phase has by then
   * lasted longer than the stable window; the total cap is never what ends it.
   */
  lemma PollEndsExactly(steps: seq<Step>, now: int)
    requires After(steps).loop.Draining? && Wakes(After(steps), now)
    ensures var s, t := After(steps), After(steps + [Poll(now)]);
            && s.pending == {} && s.loop.since == Some(s.loop.start)
            && (t.loop.Idle? <==> now - s.loop.start > STABLE_EMPTY_MS)
            && (t.autoApplying <==> !t.loop.Idle?)
            && (!t.loop.Idle? ==> now - s.loop.start < MAX_TOTAL_MS)
  {
    RunOk(steps);
    NewCardsAreFired(steps);
    assert (steps + [Poll(now)])[..|steps|] == steps;
  }

  // ---- cards that become executing when Apply-all has ended ----

  predicate Starts(s: State, step: Step) {
    step.StartAll? && s.loop.Idle? && Enumerates(step.order, s.pending)
  }

  /** The poll that ends Apply-all: the first for which the waiting phase has outlasted the stable window. */
  predicate Ends(s: State, step: Step) {
    step.Poll? && s.loop.Draining? && Wakes(s, step.now) && step.now - s.loop.start > STABLE_EMPTY_MS
  }

  ghost predicate StartsAt(steps: seq<Step>, i: nat)
    requires i < |steps|
  {
    Starts(After(steps[..i]), steps[i])
  }

  ghost predicate EndsAt(steps: seq<Step>, i: nat)
    requires i < |steps|
  {
    Ends(After(steps[..i]), steps[i])
  }

  /** Apply-all was started, and its ending poll has not yet come. */
  ghost predicate Running(steps: seq<Step>) {
    exists i :: 0 <= i < |steps| && StartsAt(steps, i) && forall j :: i < j < |steps| ==> !EndsAt(steps, j)
  }

  lemma FlagAfter(s: State, step: Step)
    requires Ok(s)
    ensures Next(s, step).autoApplying <==> Starts(s, step) || (s.autoApplying && !Ends(s, step))
  {
    if step.Poll? && s.loop.Draining? && Wakes(s, step.now) {
      assert s.pending == {};
    }
  }

  lemma RunningNext(init: seq<Step>, step: Step)
    requires Starts(After(init), step) ==> !Ends(After(init), step)
    ensures Running(init + [step]) <==>
      Starts(After(init), step) || (Running(init) && !Ends(After(init), step))
  {
    var steps, n := init + [step], |init|;
    assert steps[..n] == init;
    assert forall i :: 0 <= i < n ==> steps[..i] == init[..i];
    assert forall i :: 0 <= i < n ==>
      (StartsAt(steps, i) <==> StartsAt(init, i)) && (EndsAt(steps, i) <==> EndsAt(init, i));
    assert StartsAt(steps, n) <==> Starts(After(init), step);
    assert EndsAt(steps, n) <==> Ends(After(init), step);
    if Running(init) && !Ends(After(init), step) {
      var i :| 0 <= i < n && StartsAt(init, i) && forall j :: i < j < n ==> !EndsAt(init, j);
      assert StartsAt(steps, i);
    }
  }

  /** In every run the flag is on exactly while Apply-all is running. */
  lemma {:induction false} FlagIsRunning(steps: seq<Step>)
    ensures After(steps).autoApplying <==> Running(steps)
  {
    if steps != [] {
      var init, step := steps[..|steps| - 1], steps[|steps| - 1];
      FlagIsRunning(init);
      RunOk(init);
      FlagAfter(After(init), step);
      RunningNext(init, step);
      assert steps == init + [step];
    }
  }

  /** The card's registration effect is due, and will register it. */
  predicate DueToRegister(s: State, c: CardId) {
    && Mounted(s, c) && s.cards[c].status.Executing? && !s.cards[c].applied
    && s.cards[c].effect != Some(Executing)
  }

  /**
   * In every run a card that registers becomes pending, and gets the microtask that will apply it if
   * and only if Apply-all was started and the poll that ends it has not yet come.
   */
  lemma QueuedExactlyWhileRunning(steps: seq<Step>, c: CardId)
    requires DueToRegister(After(steps), c)
    ensures var s, t := After(steps), After(steps + [RunEffect(c)]);
            && c in t.pending && c in t.cards && !t.cards[c].applied
            && t.microtasks == s.microtasks + (if Running(steps) then [c] else [])
  {
    FlagIsRunning(steps);
    var longer := Extend(steps, RunEffect(c));
  }

  /** None of the steps is a click on this card. */
  predicate NotClicked(steps: seq<Step>, c: CardId) {
    forall i :: 0 <= i < |steps| ==> steps[i] != ClickApply(c) && steps[i] != ClickReject(c)
  }

  /** Once Apply-all is not running, only the user decides a card, or another Apply-all. */
  lemma {:induction false} LeftToTheUser(s: State, steps: seq<Step>, c: CardId)
    requires s.loop.Idle? && !s.autoApplying && c in s.cards && NoRestart(steps) && NotClicked(steps, c)
    ensures c in RunFrom(s, steps).cards && RunFrom(s, steps).cards[c].applied == s.cards[c].applied
    decreases |steps|
  {
    if steps != [] {
      RunFromFirst(s, steps);
      LeftToTheUser(Next(s, steps[0]), steps[1..], c);
    }
  }

  /** A card that has been seen in progress. */
  const TO_COME := Card(true, InProgress, Some(InProgress), false, false, false, 0, 0)

  /** A card that was registered and has been applied. */
  const FIRED := Card(true, Executing, Some(Executing), true, false, true, 1, 0)

  /** One card executes and is registered, a second one is in progress. */
  lemma OnePending() returns (run: seq<Step>)
    ensures After(run) == State(map[0 := FIRED.(deregister := true, applied := false, applies := 0), 1 := TO_COME],
                                {0}, false, [], Idle)
  {
    run := Extend([], Mount(0, Executing));
    run := Extend(run, Mount(1, InProgress));
    run := Extend(run, RunEffect(0));
    run := Extend(run, RunEffect(1));
  }

  /** Apply-all has fired the first and begins to wait. */
  lemma OneFired() returns (run: seq<Step>)
    ensures After(run) == State(map[0 := FIRED, 1 := TO_COME], {}, true, [], Draining(80, Some(80), 80))
  {
    var waiting := OnePending();
    run := Extend(waiting, StartAll([0]));
    run := Extend(run, KickNext(0));
    assert [0][1..] == [];
    run := Extend(run, KickNext(80));
  }

  /** Apply-all over a snapshot of one card, with a second one that is not yet executing, up to its end. */
  lemma EndedWithOneToCome() returns (run: seq<Step>)
    ensures After(run) == State(map[0 := FIRED, 1 := TO_COME], {}, false, [], Idle)
  {
    run := OneFired();
    run := Extend(run, Poll(1_700));
  }

  /** A card that becomes executing after the end is left behind: pending, undecided, and nothing will fire it. */
  lemma LeftBehind() returns (run: seq<Step>)
    ensures var s := After(run);
            && 1 in s.pending && 1 in s.cards && s.cards[1].status.Executing? && !s.cards[1].applied
            && s.microtasks == [] && s.loop.Idle? && !s.autoApplying
  {
    run := EndedWithOneToCome();
    run := Extend(run, SetStatus(1, Executing));
    run := Extend(run, RunEffect(1));
  }

  // ---- how long Apply-all takes ----

  /** The most turns the handler still takes: one a card, one to begin waiting, and one a poll. */
  function Remaining(loop: Loop): nat {
    match loop
    case Idle => 0
    case Kicking(rest) => |rest| + 9
    case Draining(start, _, asleep) =>
      if asleep - start <= STABLE_EMPTY_MS then 1 + (STABLE_EMPTY_MS - (asleep - start)) / POLL_MS else 0
  }

  /** The most polls it still makes. */
  function PollsLeft(loop: Loop): nat {
    if loop.Kicking? then 8 else Remaining(loop)
  }

  /** The step is a turn of the handler. */
  predicate Resumes(s: State, step: Step) {
    match step
    case KickNext(now) => s.loop.Kicking? && (s.loop.rest != [] || Wakes(s, now))
    case Poll(now) => s.loop.Draining? && Wakes(s, now)
    case _ => false
  }

  /** The handler's turns among some steps. */
  function Resumptions(s: State, steps: seq<Step>): nat
    decreases |steps|
  {
    if steps == [] then 0
    else (if Resumes(s, steps[0]) then 1 else 0) + Resumptions(Next(s, steps[0]), steps[1..])
  }

  /** The handler's polls among some steps. */
  function Polls(s: State, steps: seq<Step>): nat
    decreases |steps|
  {
    if steps == [] then 0
    else (if Resumes(s, steps[0]) && steps[0].Poll? then 1 else 0) + Polls(Next(s, steps[0]), steps[1..])
  }

  function RunFrom(s: State, steps: seq<Step>): State
    decreases |steps|
  {
    if steps == [] then s else RunFrom(Next(s, steps[0]), steps[1..])
  }

  /** None of the steps is another click on Apply-all. */
  predicate NoRestart(steps: seq<Step>) {
    forall i :: 0 <= i < |steps| ==> !steps[i].StartAll?
  }

  lemma ResumptionCounts(s: State, step: Step)
    requires Ok(s) && !step.StartAll?
    ensures Ok(Next(s, step))
    ensures if Resumes(s, step) then Remaining(Next(s, step).loop) < Remaining(s.loop) else Next(s, step).loop == s.loop
    ensures PollsLeft(Next(s, step).loop) <= PollsLeft(s.loop) - (if Resumes(s, step) && step.Poll? then 1 else 0)
  {
    NextOk(s, step);
  }

  /** Each turn brings the handler nearer its end, and nothing else takes it back. */
  lemma {:induction false} TurnsAreBounded(s: State, steps: seq<Step>)
    requires Ok(s) && NoRestart(steps)
    ensures Ok(RunFrom(s, steps))
    ensures Resumptions(s, steps) + Remaining(RunFrom(s, steps).loop) <= Remaining(s.loop)
    ensures Polls(s, steps) + PollsLeft(RunFrom(s, steps).loop) <= PollsLeft(s.loop)
    decreases |steps|
  {
    if steps != [] {
      ResumptionCounts(s, steps[0]);
      TurnsAreBounded(Next(s, steps[0]), steps[1..]);
    }
  }

  lemma RunFromFirst(s: State, steps: seq<Step>)
    requires steps != []
    ensures RunFrom(s, steps) == RunFrom(Next(s, steps[0]), steps[1..])
  {
  }

  lemma {:induction false} RunAppends(before: seq<Step>, after: seq<Step>)
    ensures RunFrom(After(before), after) == After(before + after)
    decreases |after|
  {
    if after == [] {
      assert before + after == before;
    } else {
      var first := Extend(before, after[0]);
      RunFromFirst(After(before), after);
      RunAppends(first, after[1..]);
      assert first + after[1..] == before + after;
    }
  }

  /**
   * However clicks, effects, microtasks and status changes interleave with it: an Apply-all over n
   * cards takes at most n + 9 turns, of which at most eight are polls. When it has ended the flag is off
   * and every card that was pending at the click is decided; until then the flag is on.
   */
  lemma ApplyAllEnds(before: seq<Step>, order: seq<CardId>, after: seq<Step>)
    requires After(before).loop.Idle? && Enumerates(order, After(before).pending) && NoRestart(after)
    ensures var t := After(before + [StartAll(order)] + after);
            && Resumptions(After(before + [StartAll(order)]), after) <= |order| + 9
            && Polls(After(before + [StartAll(order)]), after) <= 8
            && (Resumptions(After(before + [StartAll(order)]), after) == |order| + 9 ==> t.loop.Idle?)
            && (t.loop.Idle? <==> !t.autoApplying)
            && (t.loop.Idle? ==> forall c :: c in After(before).pending ==> c in t.cards && t.cards[c].applied)
  {
    RunOk(before);
    var started := Extend(before, StartAll(order));
    RunOk(started);
    TurnsAreBounded(After(started), after);
    RunAppends(started, after);
    forall c | c in After(before).pending ensures DecidedOrDue(After(started), c) {
    }
    forall c | c in After(before).pending && RunFrom(After(started), after).loop.Idle?
      ensures c in RunFrom(After(started), after).cards && RunFrom(After(started), after).cards[c].applied
    {
      SnapshotIsDecided(After(started), after, c);
    }
  }

  /** The steps are microtasks and turns of the handler. */
  predicate OnlyHandler(steps: seq<Step>) {
    forall i :: 0 <= i < |steps| ==> steps[i].RunMicrotask? || steps[i].KickNext? || steps[i].Poll?
  }

  /** No run gets stuck: the microtasks and the handler's own turns lead it to its end. */
  lemma {:induction false} EndIsReachable(s: State) returns (rest: seq<Step>)
    requires Ok(s)
    ensures OnlyHandler(rest) && RunFrom(s, rest).loop.Idle? && !RunFrom(s, rest).autoApplying
    decreases Remaining(s.loop), |s.microtasks|
  {
    if s.loop.Idle? {
      rest := [];
    } else {
      var step := if s.microtasks != [] then RunMicrotask
                  else if s.loop.Kicking? then KickNext(0) else Poll(s.loop.asleep + POLL_MS);
      ResumptionCounts(s, step);
      var more := EndIsReachable(Next(s, step));
      rest := [step] + more;
      assert rest[1..] == more;
    }
  }

  /** The card is decided, or still to be fired by the snapshot loop. */
  predicate DecidedOrDue(s: State, c: CardId) {
    c in s.cards && (s.cards[c].applied || (s.loop.Kicking? && c in s.loop.rest))
  }

  lemma DecidedOrDueKept(s: State, step: Step, c: CardId)
    requires DecidedOrDue(s, c) && !step.StartAll?
    ensures DecidedOrDue(Next(s, step), c)
  {
    if step.KickNext? && s.loop.Kicking? && s.loop.rest != [] {
      assert s.loop.rest == [s.loop.rest[0]] + s.loop.rest[1..];
    }
  }

  /**
   * Every card that was pending when Apply-all was clicked is decided by the time its loop has gone
   * through the snapshot, whatever else happens meanwhile.
   */
  lemma {:induction false} SnapshotIsDecided(s: State, steps: seq<Step>, c: CardId)
    requires DecidedOrDue(s, c)
    requires forall i :: 0 <= i < |steps| ==> !steps[i].StartAll?
    ensures !RunFrom(s, steps).loop.Kicking? ==> c in RunFrom(s, steps).cards && RunFrom(s, steps).cards[c].applied
    decreases |steps|
  {
    if steps != [] {
      DecidedOrDueKept(s, steps[0], c);
      SnapshotIsDecided(Next(s, steps[0]), steps[1..], c);
    }
  }

  /** Each wait lasts at least its nominal time. */
  ghost predicate Waits(clock: nat -> int) {
    forall i: nat :: clock(i + 1) >= clock(i) + POLL_MS
  }

  /** From poll j to poll k the set was found empty each time, over more than the stable window. */
  ghost predicate StableSince(clock: nat -> int, size: nat -> nat, j: nat, k: nat) {
    j < k && (forall i: nat :: j <= i <= k ==> size(i) == 0) && clock(k) - clock(j) > STABLE_EMPTY_MS
  }

  /** At poll k the set has been found empty throughout a stable window. */
  ghost predicate Stable(clock: nat -> int, size: nat -> nat, k: nat) {
    exists j: nat :: StableSince(clock, size, j, k)
  }

  /** Since poll `since`, and not before, the set has been found empty up to poll k. */
  ghost predicate EmptySince(size: nat -> nat, since: Option<nat>, k: nat) {
    if since.None? then size(k) != 0
    else since.value <= k && (since.value > 0 ==> size(since.value - 1) != 0)
         && forall i: nat :: since.value <= i <= k ==> size(i) == 0
  }

  lemma {:induction false} WaitsAddUp(clock: nat -> int, i: nat, k: nat)
    requires Waits(clock) && i <= k
    ensures clock(k) >= clock(i) + POLL_MS * (k - i)
    decreases k
  {
    if i < k {
      WaitsAddUp(clock, i, k - 1);
      assert clock(k - 1 + 1) >= clock(k - 1) + POLL_MS;
    }
  }

  /** The handler's test finds a stable window exactly when there is one. */
  lemma StableTest(clock: nat -> int, size: nat -> nat, since: Option<nat>, k: nat)
    requires Waits(clock) && EmptySince(size, since, k)
    ensures Stable(clock, size, k) <==> since.Some? && clock(k) - clock(since.value) > STABLE_EMPTY_MS
  {
    if since.Some? {
      forall j: nat | StableSince(clock, size, j, k) ensures clock(k) - clock(since.value) > STABLE_EMPTY_MS {
        assert j >= since.value;
        WaitsAddUp(clock, since.value, j);
      }
    }
    if since.Some? && clock(k) - clock(since.value) > STABLE_EMPTY_MS {
      assert StableSince(clock, size, since.value, k);
    }
  }

  /** The waiting phase after poll k, when poll i reads the clock and finds a set of this size. */
  function Drained(clock: nat -> int, size: nat -> nat, k: nat): Loop {
    if k == 0 then Waiting(size(0) == 0, clock(0))
    else
      var before := Drained(clock, size, k - 1);
      if before.Draining? then Polled(before, size(k) == 0, clock(k)) else Idle
  }

  function TimeOf(clock: nat -> int, poll: Option<nat>): Option<int> {
    if poll.Some? then Some(clock(poll.value)) else None
  }

  function NextSince(size: nat -> nat, since: Option<nat>, k: nat): Option<nat> {
    if size(k) != 0 then None else if since.None? then Some(k) else since
  }

  lemma EmptySinceNext(size: nat -> nat, since: Option<nat>, k: nat)
    requires EmptySince(size, since, k)
    ensures EmptySince(size, NextSince(size, since, k + 1), k + 1)
  {
  }

  /** One more turn of a loop that still waits. */
  lemma DrainTurn(clock: nat -> int, size: nat -> nat, since: Option<nat>, k: nat)
    requires Waits(clock) && EmptySince(size, since, k)
    requires Drained(clock, size, k) == Draining(clock(0), TimeOf(clock, since), clock(k))
    ensures Stable(clock, size, k + 1) <==>
      size(k + 1) == 0 && since.Some? && clock(k + 1) - clock(since.value) > STABLE_EMPTY_MS
    ensures Drained(clock, size, k + 1) ==
      if Stable(clock, size, k + 1) || clock(k + 1) - clock(0) >= MAX_TOTAL_MS then Idle
      else Draining(clock(0), TimeOf(clock, NextSince(size, since, k + 1)), clock(k + 1))
  {
    EmptySinceNext(size, since, k);
    StableTest(clock, size, NextSince(size, since, k + 1), k + 1);
  }

  /** The loop has come to poll k without ending. */
  ghost predicate Waited(clock: nat -> int, size: nat -> nat, k: nat) {
    !Stable(clock, size, k) && Drained(clock, size, k).Draining?
  }

  /** How the loop stands at poll k, the first one that may end it. */
  ghost predicate Turning(clock: nat -> int, size: nat -> nat, since: Option<nat>, k: nat,
                          stableEmptySince: Option<int>, early: bool)
  {
    && EmptySince(size, since, k) && (early <==> Stable(clock, size, k))
    && (!early ==> stableEmptySince == TimeOf(clock, since))
    && (forall j: nat :: j < k ==> Waited(clock, size, j))
    && Drained(clock, size, k) ==
         if early || clock(k) - clock(0) >= MAX_TOTAL_MS then Idle
         else Draining(clock(0), stableEmptySince, clock(k))
  }

  lemma TurningStarts(clock: nat -> int, size: nat -> nat)
    requires Waits(clock)
    ensures Turning(clock, size, NextSince(size, None, 0), 0, if size(0) == 0 then Some(clock(0)) else None, false)
  {
    StableTest(clock, size, NextSince(size, None, 0), 0);
  }

  lemma TurningNext(clock: nat -> int, size: nat -> nat, since: Option<nat>, k: nat, stableEmptySince: Option<int>)
    requires Waits(clock) && Turning(clock, size, since, k, stableEmptySince, false)
    requires clock(k) - clock(0) < MAX_TOTAL_MS
    ensures var next := if size(k + 1) != 0 then None
                        else if stableEmptySince.None? then Some(clock(k + 1)) else stableEmptySince;
            var early := size(k + 1) == 0 && stableEmptySince.Some?
                         && clock(k + 1) - stableEmptySince.value > STABLE_EMPTY_MS;
            Turning(clock, size, NextSince(size, since, k + 1), k + 1, next, early)
  {
    DrainTurn(clock, size, since, k);
    EmptySinceNext(size, since, k);
    assert Waited(clock, size, k);
  }

  /**
   * The waiting loop by itself, whatever size of the set its polls find: it makes at most 150 polls
   * and ends early exactly at the first one that completes a stable window. It takes the turns of
   * the protocol, up to and including the one that ends it.
   */
  method Drain(clock: nat -> int, size: nat -> nat) returns (polls: nat, early: bool)
    requires Waits(clock)
    ensures polls <= 150
    ensures early <==> Stable(clock, size, polls)
    ensures forall k: nat :: k < polls ==> Waited(clock, size, k)
    ensures !early ==> clock(polls) - clock(0) >= MAX_TOTAL_MS
    ensures Drained(clock, size, polls).Idle?
  {
    var start := clock(0);
    var stableEmptySince: Option<int> := if size(0) == 0 then Some(start) else None;
    ghost var since: Option<nat> := NextSince(size, None, 0);
    polls, early := 0, false;
    TurningStarts(clock, size);
    while !early && clock(polls) - start < MAX_TOTAL_MS
      invariant polls <= 150
      invariant Turning(clock, size, since, polls, stableEmptySince, early)
      decreases !early, 150 - polls
    {
      WaitsAddUp(clock, 0, polls);
      TurningNext(clock, size, since, polls, stableEmptySince);
      polls := polls + 1;
      since := NextSince(size, since, polls);
      if size(polls) == 0 {
        if stableEmptySince.None? {
          stableEmptySince := Some(clock(polls));
        } else if clock(polls) - stableEmptySince.value > STABLE_EMPTY_MS {
          early := true;
        }
      } else {
        stableEmptySince := None;
      }
      WaitsAddUp(clock, 0, polls);
    }
  }

  /** None of the steps is one of the Apply-all handler. */
  predicate Outside(steps: seq<Step>) {
    forall i :: 0 <= i < |steps| ==> !steps[i].StartAll? && !steps[i].KickNext? && !steps[i].Poll?
  }

  lemma {:induction false} LoopStays(s: State, steps: seq<Step>)
    requires Outside(steps)
    ensures RunFrom(s, steps).loop == s.loop
    decreases |steps|
  {
    if steps != [] {
      LoopStays(Next(s, steps[0]), steps[1..]);
    }
  }

  /** Run i + 1 goes on from run i, while it waits, with other steps and then a poll that finds this many cards. */
  ghost predicate PollsRun(clock: nat -> int, size: nat -> nat, runs: nat -> seq<Step>, between: nat -> seq<Step>,
                           i: nat)
  {
    After(runs(i)).loop.Draining? ==>
      && Outside(between(i)) && runs(i + 1) == runs(i) + between(i) + [Poll(clock(i + 1))]
      && Wakes(After(runs(i) + between(i)), clock(i + 1))
      && size(i + 1) == |After(runs(i) + between(i)).pending|
  }

  lemma PollOfRun(clock: nat -> int, size: nat -> nat, runs: nat -> seq<Step>, between: nat -> seq<Step>, i: nat)
    requires PollsRun(clock, size, runs, between, i) && After(runs(i)).loop.Draining?
    ensures After(runs(i + 1)).loop == Polled(After(runs(i)).loop, size(i + 1) == 0, clock(i + 1))
    ensures size(i + 1) == 0
  {
    var woken := runs(i) + between(i);
    RunAppends(runs(i), between(i));
    LoopStays(After(runs(i)), between(i));
    PollEndsExactly(woken, clock(i + 1));
    var polled := Extend(woken, Poll(clock(i + 1)));
  }

  /** From i to i + 1 these loops take the turn of a poll, if they still wait, and it finds the set empty. */
  ghost predicate TurnAt(clock: nat -> int, size: nat -> nat, loops: nat -> Loop, i: nat) {
    loops(i).Draining? ==>
      loops(i + 1) == Polled(loops(i), size(i + 1) == 0, clock(i + 1)) && size(i + 1) == 0
  }

  /** Loops that begin to wait, and take a turn at each poll, are those of the waiting loop. */
  lemma {:induction false} TurnsAreDrained(clock: nat -> int, size: nat -> nat, loops: nat -> Loop, k: nat)
    requires loops(0) == Waiting(size(0) == 0, clock(0)) && size(0) == 0
    requires forall i: nat :: i < k ==> Waited(clock, size, i)
    requires forall i: nat :: TurnAt(clock, size, loops, i)
    ensures loops(k) == Drained(clock, size, k) && size(k) == 0
  {
    if k > 0 {
      TurnsAreDrained(clock, size, loops, k - 1);
      assert Waited(clock, size, k - 1) && TurnAt(clock, size, loops, k - 1);
    }
  }

  /** The polls of a run are those of the waiting loop, and each finds the set empty. */
  lemma RunIsDrained(clock: nat -> int, size: nat -> nat, runs: nat -> seq<Step>, between: nat -> seq<Step>,
                     loops: nat -> Loop)
    requires forall i: nat :: loops(i) == After(runs(i)).loop
    requires forall i: nat :: PollsRun(clock, size, runs, between, i)
    ensures forall i: nat :: TurnAt(clock, size, loops, i)
  {
    forall i: nat ensures TurnAt(clock, size, loops, i) {
      assert loops(i) == After(runs(i)).loop && loops(i + 1) == After(runs(i + 1)).loop;
      if loops(i).Draining? {
        PollOfRun(clock, size, runs, between, i);
      }
    }
  }

  lemma EmptyThroughout(clock: nat -> int, size: nat -> nat, loops: nat -> Loop, n: nat)
    requires loops(0) == Waiting(size(0) == 0, clock(0)) && size(0) == 0
    requires forall i: nat :: i < n ==> Waited(clock, size, i)
    requires forall i: nat :: TurnAt(clock, size, loops, i)
    ensures forall i: nat :: i <= n ==> size(i) == 0
    ensures forall i: nat :: i <= n ==> loops(i) == Drained(clock, size, i)
  {
    forall i: nat | i <= n ensures size(i) == 0 && loops(i) == Drained(clock, size, i) {
      TurnsAreDrained(clock, size, loops, i);
    }
  }

  lemma FlagIsLoop(run: seq<Step>)
    ensures After(run).autoApplying <==> !After(run).loop.Idle?
  {
    RunOk(run);
  }

  /** In the protocol the loop ends by its eighth poll, and leaves the flag off. */
  method DrainInRun(clock: nat -> int, size: nat -> nat, ghost runs: nat -> seq<Step>, ghost between: nat -> seq<Step>)
      returns (polls: nat)
    requires After(runs(0)).loop == Waiting(size(0) == 0, clock(0))
    requires size(0) == |After(runs(0)).pending| && After(runs(0)).microtasks == []
    requires Waits(clock) && forall i: nat :: PollsRun(clock, size, runs, between, i)
    ensures 0 < polls <= 8
    ensures After(runs(polls)).loop.Idle? && !After(runs(polls)).autoApplying
    ensures forall i: nat :: i < polls ==> After(runs(i)).loop.Draining?
  {
    var early;
    polls, early := Drain(clock, size);
    ghost var loops := (i: nat) => After(runs(i)).loop;
    WaitsWithEmptySet(runs(0), size(0));
    RunIsDrained(clock, size, runs, between, loops);
    EmptyThroughout(clock, size, loops, polls);
    StableByEighth(clock, size, polls);
    assert polls > 8 ==> Waited(clock, size, 8);
    assert Drained(clock, size, 0).Draining?;
    forall i: nat | i < polls ensures After(runs(i)).loop.Draining? {
      assert Waited(clock, size, i) && loops(i) == After(runs(i)).loop;
    }
    assert loops(polls) == After(runs(polls)).loop;
    FlagIsLoop(runs(polls));
  }

  lemma WaitsWithEmptySet(run: seq<Step>, size: nat)
    requires After(run).loop.Draining? && After(run).microtasks == [] && size == |After(run).pending|
    ensures size == 0
  {
    RunOk(run);
    NewCardsAreFired(run);
  }

  lemma StableByEighth(clock: nat -> int, size: nat -> nat, polls: nat)
    requires Waits(clock) && forall i: nat :: i <= polls ==> size(i) == 0
    ensures polls >= 8 ==> Stable(clock, size, 8)
  {
    WaitsAddUp(clock, 0, 8);
    assert polls >= 8 ==> StableSince(clock, size, 0, 8);
  }

  /** The module's registry and the cards' own references, updated in place by their handlers. */
  class CardBoard {
    var cards: map<CardId, Card>
    var pending: set<CardId>
    var autoApplying: bool
    var microtasks: seq<CardId>
    var loop: Loop

    constructor ()
      ensures Abs() == START
    {
      cards, pending, autoApplying, microtasks, loop := map[], {}, false, [], Idle;
    }

    function Abs(): State
      reads this
    {
      State(cards, pending, autoApplying, microtasks, loop)
    }

    method PendingApply(c: CardId)
      requires c in cards
      modifies this
      ensures Abs() == Decide(old(Abs()), c, true)
    {
      if cards[c].applied {
        return;
      }
      var held := cards[c].deregister;
      cards := cards[c := cards[c].(applied := true)];
      if held {
        Unregister(c);
      }
      cards := cards[c := cards[c].(deregister := false)];
      cards := cards[c := cards[c].(applies := cards[c].applies + 1)];
    }

    method GuardedReject(c: CardId)
      requires c in cards
      modifies this
      ensures Abs() == Decide(old(Abs()), c, false)
    {
      if cards[c].applied {
        return;
      }
      var held := cards[c].deregister;
      cards := cards[c := cards[c].(applied := true)];
      if held {
        Unregister(c);
      }
      cards := cards[c := cards[c].(deregister := false)];
      cards := cards[c := cards[c].(rejects := cards[c].rejects + 1)];
    }

    method Unregister(c: CardId)
      modifies this`pending
      ensures pending == old(pending) - {c}
    {
      pending := pending - {c};
    }

    method RegisterPending(c: CardId)
      modifies this`pending, this`microtasks
      ensures pending == old(pending) + {c}
      ensures microtasks == if autoApplying then old(microtasks) + [c] else old(microtasks)
    {
      pending := pending + {c};
      if autoApplying {
        microtasks := microtasks + [c];
      }
    }

    method OnEffect(c: CardId)
      requires Mounted(Abs(), c)
      modifies this
      ensures Abs() == Next(old(Abs()), RunEffect(c))
    {
      var status := cards[c].status;
      if cards[c].effect == Some(status) {
        return;
      }
      if cards[c].registered {
        Unregister(c);
        cards := cards[c := cards[c].(registered := false)];
      }
      cards := cards[c := cards[c].(effect := Some(status))];
      if !status.Executing? || cards[c].applied {
        return;
      }
      RegisterPending(c);
      cards := cards[c := cards[c].(registered := true, deregister := true)];
    }

    method OnMicrotask()
      requires forall c :: c in pending ==> c in cards
      modifies this
      ensures Abs() == Next(old(Abs()), RunMicrotask)
    {
      if microtasks == [] {
        return;
      }
      var c := microtasks[0];
      microtasks := microtasks[1..];
      if autoApplying && c in pending {
        PendingApply(c);
      }
    }

    /** Fires the next card of the snapshot, or begins to wait. */
    method OnKick(now: int)
      requires loop.Kicking? ==> forall c :: c in loop.rest ==> c in cards
      modifies this
      ensures Abs() == Next(old(Abs()), KickNext(now))
    {
      if !loop.Kicking? {
        return;
      }
      if loop.rest == [] {
        if microtasks == [] {
          loop := Draining(now, if pending == {} then Some(now) else None, now);
        }
        return;
      }
      var c := loop.rest[0];
      loop := Kicking(loop.rest[1..]);
      PendingApply(c);
    }

    method OnStartAll(order: seq<CardId>)
      requires Enumerates(order, pending)
      modifies this
      ensures Abs() == Next(old(Abs()), StartAll(order))
    {
      if !loop.Idle? {
        return;
      }
      autoApplying := true;
      loop := Kicking(order);
    }

    /** One turn of the waiting loop, and the end of the handler. */
    method OnPoll(now: int)
      requires loop.Draining? && Wakes(Abs(), now)
      modifies this
      ensures Abs() == Next(old(Abs()), Poll(now))
    {
      var start, stableEmptySince := loop.start, loop.since;
      if pending == {} {
        if stableEmptySince.None? {
          stableEmptySince := Some(now);
        } else if now - stableEmptySince.value > STABLE_EMPTY_MS {
          autoApplying, loop := false, Idle;
          return;
        }
      } else {
        stableEmptySince := None;
      }
      if now - start < MAX_TOTAL_MS {
        loop := Draining(start, stableEmptySince, now);
      } else {
        autoApplying, loop := false, Idle;
      }
    }
  }
}
