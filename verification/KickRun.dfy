/** One kick, every bot: who sends it, when each bot acts on its own rank and its own clock. */
module KickRun {
  import opened Text
  import opened Deal

  const JOB_KICK := 0
  const JOB_STEP_MS := 1500
  const JOB_MAX_AGE_MS := 30000
  const RECENT_ACT_MS := 30000

  /** What one bot knows of the member to kick: whether its roster has it, since when the job is
      queued, and when it sent its own kick if that is remembered. */
  datatype Bot = Bot(seesTarget: bool, queued: Option<int>, acted: Option<int>)

  const FRESH := Bot(true, None, None)

  /** Every bot, and who sent a kick, in order. */
  datatype Net = Net(bots: map<string, Bot>, kicks: seq<string>)

  datatype Event =
    | Submit(bot: string, now: int, room: bool)  // the bot sees the need; room: its queue has a free place
    | Tick(bot: string, now: int)
    | Echo(bot: string)                          // a kick of the member reaches the bot
    | Forget(bot: string)                        // other acts push its own out of the recent ring

  type Ranks = string -> nat

  function At(net: Net, b: string): Bot {
    if b in net.bots then net.bots[b] else FRESH
  }

  /** The kick itself: the member is there, and no kick of it went out lately. */
  predicate Sends(bot: Bot, now: int) {
    bot.seesTarget && !(bot.acted.Some? && now - bot.acted.value < RECENT_ACT_MS)
  }

  function Act(net: Net, b: string, bot: Bot, now: int): Net {
    if Sends(bot, now) then Net(net.bots[b := bot.(acted := Some(now))], net.kicks + [b])
    else net.(bots := net.bots[b := bot])
  }

  /** A queued job whose wait is over, and that is not too old. */
  predicate Due(rank: nat, bot: Bot, now: int) {
    bot.queued.Some? && rank * JOB_STEP_MS <= now - bot.queued.value <= JOB_MAX_AGE_MS
  }

  function Step(rank: Ranks, net: Net, e: Event): Net {
    var b := e.bot;
    var bot := At(net, b);
    match e
    case Submit(_, now, room) =>
      if rank(b) == 0 then Act(net, b, bot, now)
      else if bot.queued.Some? || !room then net
      else net.(bots := net.bots[b := bot.(queued := Some(now))])
    case Tick(_, now) =>
      if bot.queued.None? then net
      else if now - bot.queued.value > JOB_MAX_AGE_MS then net.(bots := net.bots[b := bot.(queued := None)])
      else if Due(rank(b), bot, now) then Act(net, b, bot.(queued := None), now)
      else net
    case Echo(_) => net.(bots := net.bots[b := bot.(seesTarget := false, acted := None)])
    case Forget(_) => net.(bots := net.bots[b := bot.(acted := None)])
  }

  const START := Net(map[], [])

  function Run(rank: Ranks, events: seq<Event>): Net {
    if events == [] then START else Step(rank, Run(rank, events[..|events| - 1]), events[|events| - 1])
  }

  // ---- what a run may be -----------------------------------------------------------------

  /** At event i the bot gets to act: it holds the job, or its wait is over. */
  predicate Turn(rank: Ranks, events: seq<Event>, i: nat)
    requires i < |events|
  {
    var e := events[i];
    match e
    case Submit(b, _, _) => rank(b) == 0
    case Tick(b, now) => Due(rank(b), At(Run(rank, events[..i]), b), now)
    case _ => false
  }

  predicate Heard(events: seq<Event>, b: string) {
    Echo(b) in events
  }

  predicate TurnOf(rank: Ranks, events: seq<Event>, i: nat, b: string) {
    i < |events| && events[i].bot == b && Turn(rank, events, i)
  }

  function TimeOf(e: Event): int {
    match e
    case Submit(_, now, _) => now
    case Tick(_, now) => now
    case _ => 0
  }

  /** No kick comes back before one was sent. */
  ghost predicate Causal(rank: Ranks, events: seq<Event>) {
    forall i :: 0 <= i < |events| && events[i].Echo? ==> Run(rank, events[..i]).kicks != []
  }

  /** Every bot but `lead` hears a kick before its own turn comes. */
  ghost predicate InTime(rank: Ranks, events: seq<Event>, lead: string) {
    forall i :: 0 <= i < |events| && Turn(rank, events, i) && events[i].bot != lead ==>
                  Heard(events[..i], events[i].bot)
  }

  /** The first time `lead` gets to act. */
  predicate FirstTurn(rank: Ranks, events: seq<Event>, j: nat, lead: string) {
    TurnOf(rank, events, j, lead) && forall k: nat :: k < j ==> !TurnOf(rank, events, k, lead)
  }

  /** Asked again at event i, after its first turn j, the bot has heard its kick, or still
      remembers sending it less than 30 s ago. */
  predicate Calm(events: seq<Event>, i: nat, j: nat, lead: string)
    requires j < i < |events|
  {
    || Heard(events[..i], lead)
    || (TimeOf(events[i]) - TimeOf(events[j]) < 30000 && Forget(lead) !in events[j..i])
  }

  /** `lead` is calm whenever it gets to act after the first time. */
  ghost predicate StaysCalm(rank: Ranks, events: seq<Event>, lead: string) {
    forall i: nat, j: nat :: FirstTurn(rank, events, j, lead) && TurnOf(rank, events, i, lead) && j < i ==>
                                Calm(events, i, j, lead)
  }

  // ---- how many kicks --------------------------------------------------------------------

  /** What `lead` remembers of a kick sent at event j and not heard. */
  function Kept(events: seq<Event>, j: nat, lead: string): Option<int>
    requires j < |events|
  {
    if Forget(lead) in events[j..] then None else Some(TimeOf(events[j]))
  }

  /** What holds after any number of events in time. */
  ghost predicate Inv(rank: Ranks, events: seq<Event>, lead: string) {
    var net := Run(rank, events);
    && (forall b :: At(net, b).seesTarget <==> !Heard(events, b))
    && (net.kicks == [] ==> NothingYet(rank, events, lead))
    && (net.kicks != [] ==> exists j: nat :: FirstTurn(rank, events, j, lead))
    && (|net.kicks| == 1 ==> net.kicks == [lead] && RemembersFirst(rank, events, lead))
    && (|net.kicks| <= 1 <==> StaysCalm(rank, events, lead))
  }

  ghost predicate NothingYet(rank: Ranks, events: seq<Event>, lead: string) {
    && (forall b :: !Heard(events, b) && At(Run(rank, events), b).acted.None?)
    && (forall j: nat :: !TurnOf(rank, events, j, lead))
  }

  ghost predicate RemembersFirst(rank: Ranks, events: seq<Event>, lead: string) {
    forall j: nat :: FirstTurn(rank, events, j, lead) && !Heard(events, lead) ==>
                       At(Run(rank, events), lead).acted == Kept(events, j, lead)
  }

  lemma PrefixTurn(rank: Ranks, events: seq<Event>, n: nat, i: nat, b: string)
    requires i < n <= |events|
    ensures TurnOf(rank, events[..n], i, b) <==> TurnOf(rank, events, i, b)
    ensures events[..n][..i] == events[..i] && events[..n][i] == events[i]
  {
    assert events[..n][..i] == events[..i];
  }

  lemma PrefixFirst(rank: Ranks, events: seq<Event>, n: nat, j: nat, b: string)
    requires j < n <= |events|
    ensures FirstTurn(rank, events[..n], j, b) <==> FirstTurn(rank, events, j, b)
  {
    forall k: nat | k <= j ensures TurnOf(rank, events[..n], k, b) <==> TurnOf(rank, events, k, b) {
      PrefixTurn(rank, events, n, k, b);
    }
  }

  lemma PrefixCalm(events: seq<Event>, n: nat, i: nat, j: nat, lead: string)
    requires j < i < n <= |events|
    ensures Calm(events[..n], i, j, lead) <==> Calm(events, i, j, lead)
  {
    assert events[..n][..i] == events[..i] && events[..n][j..i] == events[j..i];
  }

  lemma PrefixOk(rank: Ranks, events: seq<Event>, n: nat, lead: string)
    requires n <= |events| && Causal(rank, events) && InTime(rank, events, lead)
    ensures Causal(rank, events[..n]) && InTime(rank, events[..n], lead)
  {
    forall i | 0 <= i < n ensures events[..n][..i] == events[..i] {
    }
  }

  /** One more event: the lead stays calm if it was, and is when this is a turn of its. */
  lemma CalmStep(rank: Ranks, events: seq<Event>, e: Event, lead: string)
    ensures var all, n := events + [e], |events|;
            StaysCalm(rank, all, lead)
            <==> StaysCalm(rank, events, lead)
                 && (TurnOf(rank, all, n, lead) ==>
                       forall j: nat :: j < n && FirstTurn(rank, events, j, lead) ==> Calm(all, n, j, lead))
  {
    hide Calm, TurnOf, FirstTurn;
    var all, n := events + [e], |events|;
    assert all[..n] == events;
    forall j: nat | j < n ensures FirstTurn(rank, events, j, lead) <==> FirstTurn(rank, all, j, lead) {
      PrefixFirst(rank, all, n, j, lead);
    }
    forall i: nat | i < n ensures TurnOf(rank, events, i, lead) <==> TurnOf(rank, all, i, lead) {
      PrefixTurn(rank, all, n, i, lead);
    }
    forall i: nat, j: nat | j < i < n ensures Calm(events, i, j, lead) <==> Calm(all, i, j, lead) {
      PrefixCalm(all, n, i, j, lead);
    }
    TurnsBelow(rank, events, lead);
    TurnsBelow(rank, all, lead);
  }

  lemma TurnsBelow(rank: Ranks, events: seq<Event>, lead: string)
    ensures forall i: nat :: TurnOf(rank, events, i, lead) ==> i < |events|
    ensures forall i: nat :: FirstTurn(rank, events, i, lead) ==> i < |events|
  {
  }

  /** Does this event send a kick? */
  predicate Kicks(rank: Ranks, net: Net, e: Event) {
    match e
    case Submit(b, now, _) => rank(b) == 0 && Sends(At(net, b), now)
    case Tick(b, now) => Due(rank(b), At(net, b), now) && Sends(At(net, b), now)
    case _ => false
  }

  lemma StepIs(rank: Ranks, net: Net, e: Event)
    ensures var next := Step(rank, net, e);
            && next.kicks == net.kicks + (if Kicks(rank, net, e) then [e.bot] else [])
            && (forall b :: b != e.bot ==> At(next, b) == At(net, b))
            && At(next, e.bot).seesTarget == (At(net, e.bot).seesTarget && !e.Echo?)
            && At(next, e.bot).acted == (if Kicks(rank, net, e) then Some(TimeOf(e))
                                         else if e.Echo? || e.Forget? then None else At(net, e.bot).acted)
  {
  }

  /** A kick is sent by a bot that gets to act, sees the member and remembers no kick of its own. */
  lemma KickNeedsTurn(rank: Ranks, events: seq<Event>, e: Event)
    ensures Kicks(rank, Run(rank, events), e)
            <==> Turn(rank, events + [e], |events|) && Sends(At(Run(rank, events), e.bot), TimeOf(e))
  {
    assert (events + [e])[..|events|] == events;
  }

  /** A kick of these runs is one of the lead's turns. */
  lemma OnlyLeadKicks(rank: Ranks, events: seq<Event>, e: Event, lead: string)
    requires Inv(rank, events, lead) && InTime(rank, events + [e], lead) && Kicks(rank, Run(rank, events), e)
    ensures TurnOf(rank, events + [e], |events|, lead)
  {
    KickNeedsTurn(rank, events, e);
    assert (events + [e])[..|events|] == events;
  }

  /** Before the first kick the lead had no turn; its first turn is the first kick. */
  lemma FirstKick(rank: Ranks, events: seq<Event>, e: Event, lead: string)
    requires Inv(rank, events, lead) && Run(rank, events).kicks == []
    requires Causal(rank, events + [e]) && InTime(rank, events + [e], lead)
    ensures Inv(rank, events + [e], lead)
  {
    var all, n, net := events + [e], |events|, Run(rank, events);
    var next := Run(rank, all);
    assert all[..n] == events && all[n] == e && next == Step(rank, net, e) && !e.Echo?;
    StepIs(rank, net, e);
    KickNeedsTurn(rank, events, e);
    CalmStep(rank, events, e, lead);
    TurnsOfMore(rank, events, e, lead);
    if Kicks(rank, net, e) {
      OnlyLeadKicks(rank, events, e, lead);
      assert FirstTurn(rank, all, n, lead);
      assert all[n..] == [e];
    } else {
      assert !TurnOf(rank, all, n, lead);
    }
  }

  lemma TurnsOfMore(rank: Ranks, events: seq<Event>, e: Event, lead: string)
    ensures forall j: nat :: j < |events| ==>
              (TurnOf(rank, events + [e], j, lead) <==> TurnOf(rank, events, j, lead))
              && (FirstTurn(rank, events + [e], j, lead) <==> FirstTurn(rank, events, j, lead))
  {
    assert (events + [e])[..|events|] == events;
    forall j: nat | j < |events|
      ensures TurnOf(rank, events + [e], j, lead) <==> TurnOf(rank, events, j, lead)
      ensures FirstTurn(rank, events + [e], j, lead) <==> FirstTurn(rank, events, j, lead)
    {
      PrefixTurn(rank, events + [e], |events|, j, lead);
      PrefixFirst(rank, events + [e], |events|, j, lead);
    }
  }

  /** After the first kick the lead sends another exactly when a turn finds it not calm. */
  lemma SecondKick(rank: Ranks, events: seq<Event>, e: Event, lead: string, j: nat)
    requires Inv(rank, events, lead) && |Run(rank, events).kicks| == 1 && FirstTurn(rank, events, j, lead)
    requires InTime(rank, events + [e], lead)
    ensures Kicks(rank, Run(rank, events), e)
            <==> TurnOf(rank, events + [e], |events|, lead) && !Calm(events + [e], |events|, j, lead)
  {
    var all, n := events + [e], |events|;
    assert all[..n] == events && all[j..n] == events[j..];
    KickNeedsTurn(rank, events, e);
    if Kicks(rank, Run(rank, events), e) {
      OnlyLeadKicks(rank, events, e, lead);
    }
  }

  lemma HeardMore(events: seq<Event>, e: Event, b: string)
    ensures Heard(events + [e], b) <==> Heard(events, b) || e == Echo(b)
  {
  }

  /** The first kick stays in the memory of the lead until it is heard or forgotten. */
  lemma StillRemembers(rank: Ranks, events: seq<Event>, e: Event, lead: string)
    requires RemembersFirst(rank, events, lead) && !Kicks(rank, Run(rank, events), e)
    requires exists j: nat :: FirstTurn(rank, events, j, lead)
    ensures RemembersFirst(rank, events + [e], lead)
  {
    hide FirstTurn, Kicks, Step;
    var all := events + [e];
    assert all[..|events|] == events;
    StepIs(rank, Run(rank, events), e);
    var j: nat :| FirstTurn(rank, events, j, lead);
    FirstIsOne(rank, events, e, lead, j);
    HeardMore(events, e, lead);
    assert all[j..] == events[j..] + [e];
  }

  lemma FirstIsOne(rank: Ranks, events: seq<Event>, e: Event, lead: string, j: nat)
    requires FirstTurn(rank, events, j, lead)
    ensures j < |events|
    ensures forall k: nat :: FirstTurn(rank, events, k, lead) ==> k == j
    ensures FirstTurn(rank, events + [e], j, lead)
    ensures forall k: nat :: FirstTurn(rank, events + [e], k, lead) ==> k == j
  {
    TurnsOfMore(rank, events, e, lead);
  }

  lemma LaterKicks(rank: Ranks, events: seq<Event>, e: Event, lead: string)
    requires Inv(rank, events, lead) && Run(rank, events).kicks != [] && InTime(rank, events + [e], lead)
    ensures Inv(rank, events + [e], lead)
  {
    hide FirstTurn, TurnOf, Calm, StaysCalm, Turn, Kicks, Step, RemembersFirst, NothingYet, InTime, Heard;
    var all, n, net := events + [e], |events|, Run(rank, events);
    var next := Run(rank, all);
    assert all[..n] == events && all[n] == e && next == Step(rank, net, e);
    StepIs(rank, net, e);
    CalmStep(rank, events, e, lead);
    var j: nat :| FirstTurn(rank, events, j, lead);
    FirstIsOne(rank, events, e, lead, j);
    forall b ensures At(next, b).seesTarget <==> !Heard(all, b) {
      HeardMore(events, e, b);
    }
    if |net.kicks| == 1 {
      SecondKick(rank, events, e, lead, j);
      if !Kicks(rank, net, e) {
        StillRemembers(rank, events, e, lead);
      }
    }
  }

  lemma {:induction false} InvHolds(rank: Ranks, events: seq<Event>, lead: string)
    requires Causal(rank, events) && InTime(rank, events, lead)
    ensures Inv(rank, events, lead)
  {
    if events != [] {
      var n := |events| - 1;
      PrefixOk(rank, events, n, lead);
      InvHolds(rank, events[..n], lead);
      assert events == events[..n] + [events[n]];
      if Run(rank, events[..n]).kicks == [] {
        FirstKick(rank, events[..n], events[n], lead);
      } else {
        LaterKicks(rank, events[..n], events[n], lead);
      }
    }
  }

  /** If every other bot hears a kick before its own turn, at most one kick is sent exactly when
      `lead` stays calm; `lead` is then the one to send it, when it gets a turn at all.  `lead` is
      the holder, or, when those dealt before it are silent, a backup whose wait is over. */
  lemma OneKick(rank: Ranks, events: seq<Event>, lead: string)
    requires Causal(rank, events) && InTime(rank, events, lead)
    ensures |Run(rank, events).kicks| <= 1 <==> StaysCalm(rank, events, lead)
    ensures StaysCalm(rank, events, lead) ==>
              Run(rank, events).kicks == if exists i: nat :: TurnOf(rank, events, i, lead) then [lead] else []
  {
    InvHolds(rank, events, lead);
  }

  ghost function DealtRanks(h: Hash, ids: set<string>): Ranks {
    (b: string) => if b in ids then Rank(h, ids, b, JOB_KICK) else 1
  }

  /** With the ranks of the deal: there is one holder; if it sees the need, and each backup hears
      its kick before rank times 1.5 s have passed since it queued its own, exactly one kick is
      sent, the holder's, if and only if the holder stays calm. */
  lemma HolderKicksOnce(h: Hash, ids: set<string>, events: seq<Event>) returns (holder: string)
    requires ids != {}
    requires forall e :: e in events ==> e.bot in ids
    ensures holder in ids && Rank(h, ids, holder, JOB_KICK) == 0
    ensures forall b :: b in ids && b != holder ==> Rank(h, ids, b, JOB_KICK) > 0
    ensures var rank := DealtRanks(h, ids);
            Causal(rank, events) && InTime(rank, events, holder) && (exists e :: e in events && e.Submit? && e.bot == holder)
            ==> (Run(rank, events).kicks == [holder] <==> StaysCalm(rank, events, holder))
  {
    RanksArePermutation(h, ids, JOB_KICK, 0);
    holder :| holder in ids && Rank(h, ids, holder, JOB_KICK) == 0;
    var rank := DealtRanks(h, ids);
    if Causal(rank, events) && InTime(rank, events, holder)
       && (exists e :: e in events && e.Submit? && e.bot == holder) {
      OneKick(rank, events, holder);
      var i :| 0 <= i < |events| && events[i].Submit? && events[i].bot == holder;
      assert TurnOf(rank, events, i, holder);
    }
  }

  /** A holder asked twice, with no echo and no other turn in between, sends a second kick exactly
      when 30 s have passed or other acts have pushed the first out of its memory. */
  lemma AskedAgain(rank: Ranks, holder: string, t: int, u: int, forgot: bool)
    requires rank(holder) == 0
    ensures var between := if forgot then [Forget(holder)] else [];
            Run(rank, [Submit(holder, t, true)] + between + [Submit(holder, u, true)]).kicks
            == if u - t >= 30000 || forgot then [holder, holder] else [holder]
  {
    var first, second, between := Submit(holder, t, true), Submit(holder, u, true), if forgot then [Forget(holder)] else [];
    assert ([first] + between + [second])[..1 + |between|] == [first] + between;
    assert ([first] + [Forget(holder)])[..1] == [first] && [first][..0] == [];
    assert Run(rank, [first]) == Step(rank, START, first);
    StepIs(rank, START, first);
    assert forgot ==> Run(rank, [first] + between) == Step(rank, Run(rank, [first]), Forget(holder));
    assert !forgot ==> [first] + between == [first];
    StepIs(rank, Run(rank, [first]), Forget(holder));
    StepIs(rank, Run(rank, [first] + between), second);
    assert [] + [holder] == [holder] && [holder] + [holder] == [holder, holder];
  }
}
