/** The emitted observer set: subscription bookkeeping under a wrapping token counter, and event delivery. */
module Observers {
  import opened Bytes

  const TOKEN_SPACE: nat := 0x1_0000_0000_0000_0000

  datatype Subscription<+F> = Subscription(token: u64, filter: F)

  datatype Command<+F> = Register(filter: F) | Unregister(token: u64)

  datatype SetState<+F> = SetState(subscriptions: seq<Subscription<F>>, nextTokenValue: u64)

  // ---- One step at a time -------------------------------------------------

  function Retain<F>(subscriptions: seq<Subscription<F>>, token: u64): (kept: seq<Subscription<F>>)
    ensures |kept| <= |subscriptions|
  {
    if subscriptions == [] then []
    else
      var last := subscriptions[|subscriptions| - 1];
      Retain(subscriptions[..|subscriptions| - 1], token) + (if last.token != token then [last] else [])
  }

  function Apply<F>(state: SetState<F>, command: Command<F>): SetState<F> {
    match command
    case Register(filter) =>
      SetState(
        state.subscriptions + [Subscription(state.nextTokenValue, filter)],
        (state.nextTokenValue + 1) % TOKEN_SPACE)
    case Unregister(token) => state.(subscriptions := Retain(state.subscriptions, token))
  }

  function Run<F>(history: seq<Command<F>>): SetState<F> {
    if history == [] then SetState([], 1)
    else Apply(Run(history[..|history| - 1]), history[|history| - 1])
  }

  // ---- A whole history read directly --------------------------------------

  function Registrations<F>(history: seq<Command<F>>): (n: nat)
    ensures n <= |history|
  {
    if history == [] then 0
    else Registrations(history[..|history| - 1]) + (if history[|history| - 1].Register? then 1 else 0)
  }

  /** The token a registration at position `i` is issued: the count of earlier registrations, from one, wrapping. */
  function TokenAt<F>(history: seq<Command<F>>, i: nat): u64
    requires i <= |history|
  {
    (1 + Registrations(history[..i])) % TOKEN_SPACE
  }

  /** Registered at `i` and not unregistered since. */
  ghost predicate LiveAt<F>(history: seq<Command<F>>, i: nat)
    requires i < |history|
  {
    history[i].Register? && forall j | i < j < |history| :: history[j] != Unregister(TokenAt(history, i))
  }

  ghost function LiveHere<F>(history: seq<Command<F>>, i: nat): seq<Subscription<F>>
    requires i < |history|
  {
    if LiveAt(history, i) then [Subscription(TokenAt(history, i), history[i].filter)] else []
  }

  /** The subscriptions still live, among those registered before position `n`, in registration order. */
  ghost function LiveBefore<F>(history: seq<Command<F>>, n: nat): seq<Subscription<F>>
    requires n <= |history|
  {
    if n == 0 then []
    else LiveBefore(history, n - 1) + LiveHere(history, n - 1)
  }

  ghost function Live<F>(history: seq<Command<F>>): seq<Subscription<F>> {
    LiveBefore(history, |history|)
  }

  lemma TokenKept<F>(history: seq<Command<F>>, command: Command<F>, i: nat)
    requires i <= |history|
    ensures TokenAt(history + [command], i) == TokenAt(history, i)
  {
    assert (history + [command])[..i] == history[..i];
  }

  lemma LiveAtAfter<F>(history: seq<Command<F>>, command: Command<F>, i: nat)
    requires i < |history|
    ensures LiveAt(history + [command], i)
       <==> LiveAt(history, i) && command != Unregister(TokenAt(history, i))
  {
    var longer := history + [command];
    TokenKept(history, command, i);
    assert longer[|history|] == command;
    assert forall j | 0 <= j < |history| :: longer[j] == history[j];
  }

  lemma LiveHereAfter<F>(history: seq<Command<F>>, command: Command<F>, i: nat)
    requires i < |history|
    ensures LiveHere(history + [command], i)
         == if command.Unregister? then Retain(LiveHere(history, i), command.token) else LiveHere(history, i)
  {
    LiveAtAfter(history, command, i);
    TokenKept(history, command, i);
  }

  lemma RetainLast<F>(earlier: seq<Subscription<F>>, last: seq<Subscription<F>>, token: u64)
    requires |last| <= 1
    ensures Retain(earlier + last, token) == Retain(earlier, token) + Retain(last, token)
  {
    if last == [] {
      assert earlier + last == earlier;
    } else {
      assert (earlier + last)[..|earlier|] == earlier;
      assert last[..0] == [];
    }
  }

  /** One more command changes what is live among the earlier registrations as one retain does. */
  lemma {:induction false} LiveBeforeAfter<F>(history: seq<Command<F>>, command: Command<F>, n: nat)
    requires n <= |history|
    ensures LiveBefore(history + [command], n)
         == if command.Unregister? then Retain(LiveBefore(history, n), command.token) else LiveBefore(history, n)
  {
    if n > 0 {
      LiveBeforeAfter(history, command, n - 1);
      LiveHereAfter(history, command, n - 1);
      var earlier, last := LiveBefore(history, n - 1), LiveHere(history, n - 1);
      if command.Unregister? {
        RetainLast(earlier, last, command.token);
      }
    }
  }

  lemma LiveAfter<F>(history: seq<Command<F>>, command: Command<F>)
    ensures Live(history + [command])
         == match command
            case Register(filter) => Live(history) + [Subscription(TokenAt(history, |history|), filter)]
            case Unregister(token) => Retain(Live(history), token)
  {
    LiveBeforeAfter(history, command, |history|);
    TokenKept(history, command, |history|);
    var longer := history + [command];
    assert LiveAt(longer, |history|) <==> longer[|history|].Register?;
  }

  lemma CounterAfter<F>(history: seq<Command<F>>, command: Command<F>)
    ensures TokenAt(history + [command], |history| + 1)
         == if command.Register? then (TokenAt(history, |history|) + 1) % TOKEN_SPACE else TokenAt(history, |history|)
  {
    var longer := history + [command];
    assert longer[..|longer|] == longer && longer[..|history|] == history == history[..|history|];
  }

  /**
   * The live list after any history is exactly the subscriptions registered and not since unregistered, in
   * registration order, and the counter is where the number of registrations puts it.
   */
  lemma {:induction false} RunIsLive<F>(history: seq<Command<F>>)
    ensures Run(history) == SetState(Live(history), TokenAt(history, |history|))
  {
    if history != [] {
      var before, command := history[..|history| - 1], history[|history| - 1];
      assert history == before + [command];
      RunIsLive(before);
      LiveAfter(before, command);
      CounterAfter(before, command);
    }
  }

  lemma {:induction false} RegistrationsGrow<F>(history: seq<Command<F>>, i: nat, j: nat)
    requires i <= j <= |history|
    ensures Registrations(history[..i]) <= Registrations(history[..j])
    ensures i < j && history[i].Register? ==> Registrations(history[..i]) < Registrations(history[..j])
    decreases j - i
  {
    if i < j {
      assert history[..j][..j - 1] == history[..j - 1];
      RegistrationsGrow(history, i, j - 1);
    }
  }

  lemma RegistrationsBetween<F>(history: seq<Command<F>>, i: nat, j: nat)
    requires i < j < |history| && history[i].Register? && history[j].Register?
    ensures 0 < Registrations(history[..j]) - Registrations(history[..i]) < Registrations(history)
  {
    assert history[..|history|] == history;
    RegistrationsGrow(history, i, j);
    RegistrationsGrow(history, j, |history|);
  }

  /** Two registrations share a token exactly when they are a whole number of counter wraps apart. */
  lemma TokensCollideIff<F>(history: seq<Command<F>>, i: nat, j: nat)
    requires i <= j <= |history|
    ensures TokenAt(history, i) == TokenAt(history, j)
       <==> (Registrations(history[..j]) - Registrations(history[..i])) % TOKEN_SPACE == 0
  {
  }

  /** Each live subscription was registered at a live position, and stands behind those registered before it. */
  lemma {:induction false} LiveTokenSource<F>(history: seq<Command<F>>, n: nat, k: nat) returns (i: nat)
    requires n <= |history| && k < |LiveBefore(history, n)|
    ensures i < n && LiveAt(history, i) && k == |LiveBefore(history, i)|
    ensures LiveBefore(history, n)[k].token == TokenAt(history, i)
  {
    if k < |LiveBefore(history, n - 1)| {
      i := LiveTokenSource(history, n - 1, k);
    } else {
      i := n - 1;
    }
  }

  /** Each live position has its subscription in the list, behind those registered before it. */
  lemma {:induction false} LiveTokenPosition<F>(history: seq<Command<F>>, n: nat, i: nat)
    requires i < n <= |history| && LiveAt(history, i)
    ensures |LiveBefore(history, i)| < |LiveBefore(history, n)|
    ensures LiveBefore(history, n)[|LiveBefore(history, i)|].token == TokenAt(history, i)
  {
    if i < n - 1 {
      LiveTokenPosition(history, n - 1, i);
    }
  }

  ghost predicate DistinctTokens<F>(subscriptions: seq<Subscription<F>>) {
    forall k, l | 0 <= k < l < |subscriptions| :: subscriptions[k].token != subscriptions[l].token
  }

  /** No two live registrations are a whole number of counter wraps apart. */
  ghost predicate NoLiveWrap<F>(history: seq<Command<F>>) {
    forall i, j | 0 <= i < j < |history| && LiveAt(history, i) && LiveAt(history, j) ::
      (Registrations(history[..j]) - Registrations(history[..i])) % TOKEN_SPACE != 0
  }

  /** Two live positions stand in the list in their order, under their tokens. */
  lemma LivePositionsApart<F>(history: seq<Command<F>>, i: nat, j: nat)
    requires i < j < |history| && LiveAt(history, i) && LiveAt(history, j)
    requires DistinctTokens(Live(history))
    ensures TokenAt(history, i) != TokenAt(history, j)
  {
    LiveTokenPosition(history, |history|, i);
    LiveTokenPosition(history, |history|, j);
    LiveTokenPosition(history, j, i);
  }

  lemma LiveSubscriptionsApart<F>(history: seq<Command<F>>, k: nat, l: nat) returns (i: nat, j: nat)
    requires k < l < |Live(history)|
    ensures i < j < |history| && LiveAt(history, i) && LiveAt(history, j)
    ensures Live(history)[k].token == TokenAt(history, i) && Live(history)[l].token == TokenAt(history, j)
  {
    i := LiveTokenSource(history, |history|, k);
    j := LiveTokenSource(history, |history|, l);
    if j < i {
      LiveTokenPosition(history, i, j);
    }
  }

  /** After any history the live tokens are distinct exactly when no two live registrations are whole wraps apart. */
  lemma LiveTokensDistinctIff<F>(history: seq<Command<F>>)
    ensures DistinctTokens(Live(history)) <==> NoLiveWrap(history)
  {
    var live := Live(history);
    if DistinctTokens(live) {
      forall i, j | 0 <= i < j < |history| && LiveAt(history, i) && LiveAt(history, j)
        ensures (Registrations(history[..j]) - Registrations(history[..i])) % TOKEN_SPACE != 0
      {
        LivePositionsApart(history, i, j);
        TokensCollideIff(history, i, j);
      }
    }
    if NoLiveWrap(history) {
      forall k, l | 0 <= k < l < |live|
        ensures live[k].token != live[l].token
      {
        var i, j := LiveSubscriptionsApart(history, k, l);
        TokensCollideIff(history, i, j);
      }
    }
  }

  /** Up to 2^64 registrations the wrapping counter never hands a live token out twice. */
  lemma LiveTokensDistinct<F>(history: seq<Command<F>>)
    requires Registrations(history) <= 0x1_0000_0000_0000_0000
    ensures DistinctTokens(Live(history))
  {
    forall i, j | 0 <= i < j < |history| && LiveAt(history, i) && LiveAt(history, j)
      ensures (Registrations(history[..j]) - Registrations(history[..i])) % TOKEN_SPACE != 0
    {
      RegistrationsBetween(history, i, j);
    }
    LiveTokensDistinctIff(history);
  }

  /** One subscriber stays, and `n` others each come and go by the token they were issued. */
  function Churn<F>(filter: F, n: nat): seq<Command<F>> {
    if n == 0 then [Command.Register(filter)]
    else
      var before := Churn(filter, n - 1);
      before + [Command.Register(filter), Command.Unregister(TokenAt(before, |before|))]
  }

  lemma RunAppend<F>(history: seq<Command<F>>, command: Command<F>)
    ensures Run(history + [command]) == Apply(Run(history), command)
  {
    assert (history + [command])[..|history|] == history;
  }

  lemma RunAppendTwo<F>(history: seq<Command<F>>, first: Command<F>, second: Command<F>)
    ensures Run(history + [first, second]) == Apply(Apply(Run(history), first), second)
  {
    RunAppend(history, first);
    RunAppend(history + [first], second);
    assert history + [first] + [second] == history + [first, second];
  }

  /** Coming and going leaves the list as it was, unless the counter issues a token that is held. */
  lemma VisitKeepsList<F>(state: SetState<F>, filter: F)
    requires !Holds(state.subscriptions, state.nextTokenValue)
    ensures Apply(Apply(state, Command.Register(filter)), Command.Unregister(state.nextTokenValue))
         == SetState(state.subscriptions, (state.nextTokenValue + 1) % TOKEN_SPACE)
  {
    var token := state.nextTokenValue;
    var visitor := [Subscription(token, filter)];
    RetainLast(state.subscriptions, visitor, token);
    RetainRemoves(state.subscriptions, token);
    assert Retain(visitor, token) == Retain(visitor[..0], token) == [];
  }

  lemma ChurnStep<F>(filter: F, n: nat)
    requires n > 0
    ensures
      var state := Run(Churn(filter, n - 1));
      Run(Churn(filter, n)) == Apply(Apply(state, Command.Register(filter)), Command.Unregister(state.nextTokenValue))
  {
    var before := Churn(filter, n - 1);
    RunIsLive(before);
    RunAppendTwo(before, Command.Register(filter), Command.Unregister(TokenAt(before, |before|)));
  }

  lemma CounterUnderWrap(n: nat)
    requires 0 < n < TOKEN_SPACE
    ensures (n + 1) % TOKEN_SPACE != 1
    ensures ((n + 1) % TOKEN_SPACE + 1) % TOKEN_SPACE == (n + 2) % TOKEN_SPACE
  {
    if n + 1 == TOKEN_SPACE {
      assert (n + 1) % TOKEN_SPACE == 0;
    }
  }

  lemma {:induction false} ChurnRuns<F>(filter: F, n: nat)
    requires n < TOKEN_SPACE
    ensures Run(Churn(filter, n)) == SetState([Subscription(1, filter)], (n + 2) % TOKEN_SPACE)
  {
    if n == 0 {
      FirstSubscriber(filter);
    } else {
      ChurnRuns(filter, n - 1);
      ChurnStep(filter, n);
      CounterUnderWrap(n);
      VisitKeepsList(Run(Churn(filter, n - 1)), filter);
    }
  }

  lemma FirstSubscriber<F>(filter: F)
    ensures Run(Churn(filter, 0)) == SetState([Subscription(1, filter)], 2)
  {
    RunAppend([], Command.Register(filter));
    assert [] + [Command.Register(filter)] == Churn(filter, 0);
  }

  lemma SharedTokenLive<F>(history: seq<Command<F>>, stays: F, joins: F)
    requires Run(history) == SetState([Subscription(1, stays)], 1)
    ensures
      var shared := history + [Command.Register(joins)];
      && Live(shared) == [Subscription(1, stays), Subscription(1, joins)]
      && !DistinctTokens(Live(shared))
      && Live(shared + [Command.Unregister(1)]) == []
  {
    var shared := history + [Command.Register(joins)];
    RunAppend(history, Command.Register(joins));
    RunIsLive(shared);
    assert Live(shared)[0].token == Live(shared)[1].token;
    RunAppend(shared, Command.Unregister(1));
    RunIsLive(shared + [Command.Unregister(1)]);
    BothRemoved(stays, joins);
  }

  lemma CounterAtWrap(n: nat)
    requires n == TOKEN_SPACE - 1
    ensures (n + 2) % TOKEN_SPACE == 1
  {
  }

  /**
   * The bound is the last one that holds: after one subscriber has outlasted 2^64 - 1 others, the next is issued the
   * token it holds, and the first to unregister takes both away.
   */
  lemma WrapCollides<F>(stays: F, joins: F, n: nat)
    requires n == 0x1_0000_0000_0000_0000 - 1
    ensures
      var history := Churn(stays, n) + [Command.Register(joins)];
      && Live(history) == [Subscription(1, stays), Subscription(1, joins)]
      && !DistinctTokens(Live(history))
      && Live(history + [Command.Unregister(1)]) == []
  {
    ChurnRuns(stays, n);
    CounterAtWrap(n);
    SharedTokenLive(Churn(stays, n), stays, joins);
  }

  lemma BothRemoved<F>(a: F, b: F)
    ensures Retain([Subscription(1, a), Subscription(1, b)], 1) == []
  {
    var both := [Subscription(1, a), Subscription(1, b)];
    assert both[..1] == [Subscription(1, a)] && both[..1][..0] == [];
  }

  ghost predicate Holds<F>(subscriptions: seq<Subscription<F>>, token: u64) {
    exists k :: 0 <= k < |subscriptions| && subscriptions[k].token == token
  }

  /** Retaining shortens the list exactly when the token was held, and by one when tokens are distinct. */
  lemma {:induction false} RetainRemoves<F>(subscriptions: seq<Subscription<F>>, token: u64)
    ensures |Retain(subscriptions, token)| != |subscriptions| <==> Holds(subscriptions, token)
    ensures !Holds(subscriptions, token) ==> Retain(subscriptions, token) == subscriptions
    ensures DistinctTokens(subscriptions) && Holds(subscriptions, token)
            ==> |Retain(subscriptions, token)| == |subscriptions| - 1
  {
    if subscriptions != [] {
      var n := |subscriptions| - 1;
      RetainRemoves(subscriptions[..n], token);
      assert subscriptions == subscriptions[..n] + [subscriptions[n]];
      assert Holds(subscriptions, token) <==> Holds(subscriptions[..n], token) || subscriptions[n].token == token by {
        if Holds(subscriptions[..n], token) {
          var k :| 0 <= k < n && subscriptions[..n][k].token == token;
          assert subscriptions[k].token == token;
        }
        if Holds(subscriptions, token) && subscriptions[n].token != token {
          var k :| 0 <= k < |subscriptions| && subscriptions[k].token == token;
          assert subscriptions[..n][k].token == token;
        }
      }
    }
  }

  // ---- Delivery -----------------------------------------------------------

  function Deliveries<F, E>(subscriptions: seq<Subscription<F>>, admits: (F, E) -> bool, event: E): seq<(u64, E)> {
    if subscriptions == [] then []
    else
      var last := subscriptions[|subscriptions| - 1];
      Deliveries(subscriptions[..|subscriptions| - 1], admits, event)
      + (if admits(last.filter, event) then [(last.token, event)] else [])
  }

  /** The positions, in list order, of the subscriptions whose filter admits the event. */
  function AdmittingPositions<F, E>(subscriptions: seq<Subscription<F>>, admits: (F, E) -> bool, event: E)
    : (positions: seq<nat>)
    ensures forall p | 0 <= p < |positions| :: positions[p] < |subscriptions|
    ensures forall p, q | 0 <= p < q < |positions| :: positions[p] < positions[q]
  {
    if subscriptions == [] then []
    else
      var n := |subscriptions| - 1;
      AdmittingPositions(subscriptions[..n], admits, event)
      + (if admits(subscriptions[n].filter, event) then [n] else [])
  }

  lemma {:induction false} AdmittingPositionsComplete<F, E>(
      subscriptions: seq<Subscription<F>>, admits: (F, E) -> bool, event: E, k: nat)
    requires k < |subscriptions|
    ensures k in AdmittingPositions(subscriptions, admits, event) <==> admits(subscriptions[k].filter, event)
  {
    var n := |subscriptions| - 1;
    var before := AdmittingPositions(subscriptions[..n], admits, event);
    if k < n {
      AdmittingPositionsComplete(subscriptions[..n], admits, event, k);
    }
  }

  /** One delivery for each subscription whose filter admits the event, in list order, and no others. */
  lemma {:induction false} DeliveredOncePerPosition<F, E>(
      subscriptions: seq<Subscription<F>>, admits: (F, E) -> bool, event: E)
    ensures
      var positions := AdmittingPositions(subscriptions, admits, event);
      var deliveries := Deliveries(subscriptions, admits, event);
      && |deliveries| == |positions|
      && forall p | 0 <= p < |positions| :: deliveries[p] == (subscriptions[positions[p]].token, event)
  {
    if subscriptions != [] {
      var n := |subscriptions| - 1;
      DeliveredOncePerPosition(subscriptions[..n], admits, event);
    }
  }

  /** A delivery callback that keeps what it was given. */
  class Recipient<E> {
    var delivered: seq<(u64, E)>

    constructor ()
      ensures delivered == []
    {
      delivered := [];
    }

    method Deliver(token: u64, event: E)
      modifies this
      ensures delivered == old(delivered) + [(token, event)]
    {
      delivered := delivered + [(token, event)];
    }
  }

  class ObserverSet<F, OE, EE> {
    const matchesOperationReceived: (F, OE) -> bool
    const matchesEffectEmitted: (F, EE) -> bool
    var subscriptions: seq<Subscription<F>>
    var nextTokenValue: u64
    ghost var history: seq<Command<F>>

    ghost predicate Valid()
      reads this
    {
      SetState(subscriptions, nextTokenValue) == Run(history)
    }

    constructor (matchesOperationReceived: (F, OE) -> bool, matchesEffectEmitted: (F, EE) -> bool)
      ensures Valid() && history == [] && subscriptions == []
      ensures this.matchesOperationReceived == matchesOperationReceived
      ensures this.matchesEffectEmitted == matchesEffectEmitted
    {
      this.matchesOperationReceived := matchesOperationReceived;
      this.matchesEffectEmitted := matchesEffectEmitted;
      subscriptions := [];
      nextTokenValue := 1;
      history := [];
    }

    method Register(filter: F) returns (token: u64)
      requires Valid()
      modifies this
      ensures Valid() && history == old(history) + [Command.Register(filter)]
      ensures subscriptions == Live(history)
      ensures subscriptions == old(subscriptions) + [Subscription(token, filter)]
      ensures Registrations(history) <= TOKEN_SPACE ==> DistinctTokens(subscriptions) && !Holds(old(subscriptions), token)
    {
      token := nextTokenValue;
      nextTokenValue := (nextTokenValue + 1) % TOKEN_SPACE;
      subscriptions := subscriptions + [Subscription(token, filter)];
      history := history + [Command.Register(filter)];
      assert history[..|history| - 1] == old(history);
      RunIsLive(history);
      if Registrations(history) <= TOKEN_SPACE {
        LiveTokensDistinct(history);
        assert subscriptions[|old(subscriptions)|].token == token;
        assert forall k | 0 <= k < |old(subscriptions)| :: subscriptions[k] == old(subscriptions)[k];
      }
    }

    method Unregister(token: u64) returns (removed: bool)
      requires Valid()
      modifies this
      ensures Valid() && history == old(history) + [Command.Unregister(token)]
      ensures subscriptions == Live(history)
      ensures subscriptions == Retain(old(subscriptions), token)
      ensures removed <==> Holds(old(subscriptions), token)
      ensures removed && Registrations(old(history)) <= TOKEN_SPACE ==> |subscriptions| == |old(subscriptions)| - 1
    {
      var before := |subscriptions|;
      subscriptions := Retain(subscriptions, token);
      history := history + [Command.Unregister(token)];
      assert history[..|history| - 1] == old(history);
      RunIsLive(history);
      RunIsLive(old(history));
      RetainRemoves(old(subscriptions), token);
      if Registrations(old(history)) <= TOKEN_SPACE {
        LiveTokensDistinct(old(history));
      }
      removed := |subscriptions| != before;
    }

    method PublishOperationReceived(event: OE, recipient: Recipient<OE>)
      requires Valid()
      modifies recipient
      ensures recipient.delivered
           == old(recipient.delivered) + Deliveries(Live(history), matchesOperationReceived, event)
      ensures Valid() && history == old(history)
    {
      for i := 0 to |subscriptions|
        invariant recipient.delivered
               == old(recipient.delivered) + Deliveries(subscriptions[..i], matchesOperationReceived, event)
      {
        var subscription := subscriptions[i];
        if matchesOperationReceived(subscription.filter, event) {
          recipient.Deliver(subscription.token, event);
        }
        assert subscriptions[..i + 1][..i] == subscriptions[..i];
      }
      assert subscriptions[..|subscriptions|] == subscriptions;
      RunIsLive(history);
    }

    method PublishEffectEmitted(event: EE, recipient: Recipient<EE>)
      requires Valid()
      modifies recipient
      ensures recipient.delivered
           == old(recipient.delivered) + Deliveries(Live(history), matchesEffectEmitted, event)
      ensures Valid() && history == old(history)
    {
      for i := 0 to |subscriptions|
        invariant recipient.delivered
               == old(recipient.delivered) + Deliveries(subscriptions[..i], matchesEffectEmitted, event)
      {
        var subscription := subscriptions[i];
        if matchesEffectEmitted(subscription.filter, event) {
          recipient.Deliver(subscription.token, event);
        }
        assert subscriptions[..i + 1][..i] == subscriptions[..i];
      }
      assert subscriptions[..|subscriptions|] == subscriptions;
      RunIsLive(history);
    }
  }
}
