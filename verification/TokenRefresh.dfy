/**
 * Clients that share one session token provider: refreshes under a lock with the need checked before
 * and after taking it, over every interleaving of their steps, failures and cancellations.
 */
module TokenRefresh {
  import opened Prelude

  datatype Tokens = Tokens(refresh: string, expiresAt: int)

  /** Where a call stands; `forced` tells `refresh_session` from `refresh_session_if_needed`. */
  datatype Pc =
    | Idle
    | FirstCheck
    | AtLock(forced: bool)
    | Locked(forced: bool)
    | Refreshing(forced: bool)
    | Loaded(forced: bool, token: string)
    | InFlight(forced: bool, token: string)
    | Received(forced: bool, tokens: Tokens)
    | Counting
    | Unlocking

  /** What happened, in order: refresh requests sent, and token pairs installed. */
  datatype Event = Sent(token: string, forced: bool, expiresAt: int, at: int) | Installed(tokens: Tokens)

  datatype Provider = Provider(
    calls: seq<Pc>, lock: Option<nat>, tokens: Tokens, revision: nat, now: int, issued: set<string>, log: seq<Event>)

  datatype Action =
    | Begin(call: nat, forced: bool) | CheckFirst(call: nat) | Acquire(call: nat) | CheckAgain(call: nat)
    | ReadToken(call: nat) | Send(call: nat) | Respond(call: nat, renewed: Tokens) | Install(call: nat) | Count(call: nat)
    | Unlock(call: nat) | Fail(call: nat) | Cancel(call: nat) | Tick(seconds: nat)

  /** The access token runs out within a minute. */
  predicate Needs(t: Tokens, now: int) {
    t.expiresAt - now <= 60
  }

  predicate Holds(pc: Pc) {
    !pc.Idle? && !pc.FirstCheck? && !pc.AtLock?
  }

  function Moved(p: Provider, i: nat, pc: Pc): Provider
    requires i < |p.calls|
  {
    p.(calls := p.calls[i := pc])
  }

  predicate Enabled(p: Provider, a: Action) {
    a.Tick? || (a.call < |p.calls| && CallEnabled(p, p.calls[a.call], a))
  }

  predicate CallEnabled(p: Provider, pc: Pc, a: Action) {
    match a
    case Begin(_, _) => pc.Idle?
    case CheckFirst(_) => pc.FirstCheck?
    case Acquire(_) => pc.AtLock? && p.lock == None
    case CheckAgain(_) => pc.Locked?
    case ReadToken(_) => pc.Refreshing?
    case Send(_) => pc.Loaded?
    case Respond(_, renewed) => pc.InFlight? && renewed.refresh !in p.issued
    case Install(_) => pc.Received?
    case Count(_) => pc.Counting?
    case Unlock(_) => pc.Unlocking?
    case Fail(_) => pc.Refreshing? || pc.InFlight?
    case Cancel(_) => !pc.Counting?
    case Tick(_) => true
  }

  function After(p: Provider, a: Action): Provider
    requires Enabled(p, a)
  {
    match a
    case Begin(i, forced) => Moved(p, i, if forced then AtLock(true) else FirstCheck)
    case CheckFirst(i) => Moved(p, i, if Needs(p.tokens, p.now) then AtLock(false) else Idle)
    case Acquire(i) => Moved(p, i, Locked(p.calls[i].forced)).(lock := Some(i))
    case CheckAgain(i) =>
      var forced := p.calls[i].forced;
      Moved(p, i, if forced || Needs(p.tokens, p.now) then Refreshing(forced) else Unlocking)
    case ReadToken(i) => Moved(p, i, Loaded(p.calls[i].forced, p.tokens.refresh))
    case Send(i) =>
      var pc := p.calls[i];
      Moved(p, i, InFlight(pc.forced, pc.token)).(log := p.log + [Sent(pc.token, pc.forced, p.tokens.expiresAt, p.now)])
    case Respond(i, renewed) => Moved(p, i, Received(p.calls[i].forced, renewed)).(issued := p.issued + {renewed.refresh})
    case Install(i) =>
      var tokens := p.calls[i].tokens;
      Moved(p, i, Counting).(tokens := tokens, log := p.log + [Installed(tokens)])
    case Count(i) => Moved(p, i, Unlocking).(revision := p.revision + 1)
    case Unlock(i) => Moved(p, i, Idle).(lock := None)
    case Fail(i) => Moved(p, i, Unlocking)
    case Cancel(i) => if Holds(p.calls[i]) then Moved(p, i, Idle).(lock := None) else Moved(p, i, Idle)
    case Tick(seconds) => p.(now := p.now + seconds)
  }

  // ----- What the log says -----

  /** The pair installed last. */
  function Current(start: Tokens, log: seq<Event>): Tokens {
    if log == [] then start
    else if log[|log| - 1].Installed? then log[|log| - 1].tokens
    else Current(start, log[..|log| - 1])
  }

  function Installs(log: seq<Event>): nat {
    if log == [] then 0 else Installs(log[..|log| - 1]) + if log[|log| - 1].Installed? then 1 else 0
  }

  /** Every request carries the refresh token that was installed last when it was sent. */
  ghost predicate SendsCurrent(start: Tokens, log: seq<Event>) {
    forall k :: 0 <= k < |log| && log[k].Sent? ==> log[k].token == Current(start, log[..k]).refresh
  }

  /** A call that refreshes only when needed sends only while the installed pair runs out within a minute. */
  ghost predicate SendsNeeded(start: Tokens, log: seq<Event>) {
    forall k :: 0 <= k < |log| && log[k].Sent? && !log[k].forced ==>
      log[k].expiresAt == Current(start, log[..k]).expiresAt && Needs(Current(start, log[..k]), log[k].at)
  }

  /** No refresh token is ever installed twice. */
  ghost predicate InstallsFresh(start: Tokens, log: seq<Event>) {
    forall k :: 0 <= k < |log| && log[k].Installed? ==> !Seen(start, log[..k], log[k].tokens.refresh)
  }

  ghost predicate Seen(start: Tokens, log: seq<Event>, token: string) {
    token == start.refresh || exists e :: e in log && e.Installed? && e.tokens.refresh == token
  }

  // ----- The invariant -----

  ghost predicate LockHeld(p: Provider) {
    forall i :: 0 <= i < |p.calls| ==> (Holds(p.calls[i]) <==> p.lock == Some(i))
  }

  /** The token of the call that holds the lock is the installed one, and it still needs the refresh. */
  ghost predicate CallFits(p: Provider, pc: Pc) {
    match pc
    case Refreshing(forced) => forced || Needs(p.tokens, p.now)
    case Loaded(forced, token) => token == p.tokens.refresh && (forced || Needs(p.tokens, p.now))
    case InFlight(_, token) => token == p.tokens.refresh
    case Received(_, tokens) => tokens.refresh in p.issued
    case _ => true
  }

  ghost predicate Inv(start: Tokens, p: Provider) {
    && LockHeld(p) && (p.lock.Some? ==> p.lock.value < |p.calls|)
    && (forall i :: 0 <= i < |p.calls| ==> CallFits(p, p.calls[i]))
    && p.tokens == Current(start, p.log)
    && p.revision + (if p.lock.Some? && p.calls[p.lock.value].Counting? then 1 else 0) == Installs(p.log)
    && SendsCurrent(start, p.log) && SendsNeeded(start, p.log)
    && InstallsFresh(start, p.log) && (forall t :: Seen(start, p.log, t) ==> t in p.issued)
    && (p.lock.Some? && p.calls[p.lock.value].Received? ==> !Seen(start, p.log, p.calls[p.lock.value].tokens.refresh))
  }

  ghost predicate Init(p: Provider) {
    && (forall i :: 0 <= i < |p.calls| ==> p.calls[i].Idle?) && p.lock == None && p.revision == 0
    && p.issued == {p.tokens.refresh} && p.log == []
  }

  lemma {:induction false} InitInv(p: Provider)
    requires Init(p)
    ensures Inv(p.tokens, p)
  {
  }

  lemma {:induction false} LogSnoc(start: Tokens, log: seq<Event>, e: Event)
    ensures Current(start, log + [e]) == if e.Installed? then e.tokens else Current(start, log)
    ensures Installs(log + [e]) == Installs(log) + if e.Installed? then 1 else 0
    ensures forall t :: Seen(start, log + [e], t) <==> Seen(start, log, t) || (e.Installed? && e.tokens.refresh == t)
    ensures (log + [e])[..|log|] == log && forall k :: 0 <= k < |log| ==> (log + [e])[..k] == log[..k]
  {
    assert (log + [e])[..|log|] == log;
    forall t ensures Seen(start, log + [e], t) <==> Seen(start, log, t) || (e.Installed? && e.tokens.refresh == t) {
      if x :| x in log && x.Installed? && x.tokens.refresh == t {
        assert x in log + [e];
      }
      assert e in log + [e];
    }
  }

  lemma {:induction false} SnocSends(start: Tokens, log: seq<Event>, e: Event)
    requires SendsCurrent(start, log) && SendsNeeded(start, log) && InstallsFresh(start, log)
    requires e.Sent? ==> e.token == Current(start, log).refresh && e.expiresAt == Current(start, log).expiresAt
    requires e.Sent? && !e.forced ==> Needs(Current(start, log), e.at)
    requires e.Installed? ==> !Seen(start, log, e.tokens.refresh)
    ensures SendsCurrent(start, log + [e]) && SendsNeeded(start, log + [e]) && InstallsFresh(start, log + [e])
  {
    hide Current, Seen;
    var more := log + [e];
    assert more[..|log|] == log;
    forall k | 0 <= k < |more| ensures more[..k] == log[..k] && (k < |log| ==> more[k] == log[k]) {}
  }

  /** Steps that leave the log and the tokens alone. */
  lemma {:induction false} QuietKeeps(start: Tokens, p: Provider, a: Action)
    requires Inv(start, p) && Enabled(p, a) && !a.Send? && !a.Install? && !a.Count? && !a.Respond?
    ensures Inv(start, After(p, a))
  {
    hide Current, Installs, Seen, SendsCurrent, SendsNeeded, InstallsFresh;
  }

  lemma {:induction false} RespondKeeps(start: Tokens, p: Provider, i: nat, renewed: Tokens)
    requires Inv(start, p) && Enabled(p, Respond(i, renewed))
    ensures Inv(start, After(p, Respond(i, renewed)))
  {
    hide Current, Installs, Seen, SendsCurrent, SendsNeeded, InstallsFresh;
  }

  lemma {:induction false} SendKeeps(start: Tokens, p: Provider, i: nat)
    requires Inv(start, p) && Enabled(p, Send(i))
    ensures Inv(start, After(p, Send(i)))
  {
    hide Current, Installs, Seen, SendsCurrent, SendsNeeded, InstallsFresh;
    var e := Sent(p.calls[i].token, p.calls[i].forced, p.tokens.expiresAt, p.now);
    assert CallFits(p, p.calls[i]);
    LogSnoc(start, p.log, e);
    SnocSends(start, p.log, e);
  }

  lemma {:induction false} InstallKeeps(start: Tokens, p: Provider, i: nat)
    requires Inv(start, p) && Enabled(p, Install(i))
    ensures Inv(start, After(p, Install(i)))
  {
    hide Current, Installs, Seen, SendsCurrent, SendsNeeded, InstallsFresh;
    var e := Installed(p.calls[i].tokens);
    assert Holds(p.calls[i]) && p.lock == Some(i);
    assert CallFits(p, p.calls[i]);
    LogSnoc(start, p.log, e);
    SnocSends(start, p.log, e);
    var p' := After(p, Install(i));
    forall j | 0 <= j < |p'.calls| ensures CallFits(p', p'.calls[j]) {
      assert j != i ==> !Holds(p.calls[j]);
    }
  }

  lemma {:induction false} CountKeeps(start: Tokens, p: Provider, i: nat)
    requires Inv(start, p) && Enabled(p, Count(i))
    ensures Inv(start, After(p, Count(i)))
  {
    hide Current, Installs, Seen, SendsCurrent, SendsNeeded, InstallsFresh;
    assert Holds(p.calls[i]) && p.lock == Some(i);
  }

  lemma {:induction false} StepKeeps(start: Tokens, p: Provider, a: Action)
    requires Inv(start, p) && Enabled(p, a)
    ensures Inv(start, After(p, a))
  {
    hide Inv, Enabled, After;
    match a {
      case Respond(i, renewed) => RespondKeeps(start, p, i, renewed);
      case Send(i) => SendKeeps(start, p, i);
      case Install(i) => InstallKeeps(start, p, i);
      case Count(i) => CountKeeps(start, p, i);
      case _ => QuietKeeps(start, p, a);
    }
  }

  // ----- Whole runs -----

  ghost predicate Runs(start: Provider, actions: seq<Action>, p: Provider)
    decreases |actions|
  {
    if actions == [] then Init(start) && p == start
    else exists before :: Runs(start, Most(actions), before) && Steps(before, actions[|actions| - 1], p)
  }

  function Most(actions: seq<Action>): (r: seq<Action>)
    requires actions != []
    ensures |r| == |actions| - 1
  {
    actions[..|actions| - 1]
  }

  predicate Steps(p: Provider, a: Action, p': Provider) {
    Enabled(p, a) && p' == After(p, a)
  }

  lemma {:induction false} RunKeeps(start: Provider, actions: seq<Action>, p: Provider)
    requires Runs(start, actions, p)
    ensures Inv(start.tokens, p)
  {
    hide Inv, After, Enabled;
    if actions == [] {
      InitInv(p);
    } else {
      var last := actions[|actions| - 1];
      var before :| Runs(start, Most(actions), before) && Steps(before, last, p);
      RunKeeps(start, Most(actions), before);
      StepKeeps(start.tokens, before, last);
    }
  }

  lemma {:induction false} CurrentIsSeen(start: Tokens, log: seq<Event>)
    ensures Seen(start, log, Current(start, log).refresh)
  {
    if log != [] {
      var most, last := log[..|log| - 1], log[|log| - 1];
      assert log == most + [last];
      if last.Installed? {
        assert last in log;
      } else {
        CurrentIsSeen(start, most);
        LogSnoc(start, most, last);
      }
    }
  }

  lemma {:induction false} SeenGrows(start: Tokens, log: seq<Event>, i: nat, j: nat, t: string)
    requires i <= j <= |log| && Seen(start, log[..i], t)
    ensures Seen(start, log[..j], t)
  {
    if e :| e in log[..i] && e.Installed? && e.tokens.refresh == t {
      assert e in log[..j];
    }
  }

  /** A token that was current before an installation is never current after it. */
  lemma {:induction false} SupersededForGood(start: Tokens, log: seq<Event>, k: nat, i: nat, j: nat)
    requires InstallsFresh(start, log) && k <= i < j <= |log| && log[i].Installed?
    ensures Current(start, log[..k]).refresh != Current(start, log[..j]).refresh
  {
    hide Seen;
    var old' := Current(start, log[..k]).refresh;
    CurrentIsSeen(start, log[..k]);
    assert log[..j][..j - 1] == log[..j - 1] && log[..j][j - 1] == log[j - 1];
    if log[j - 1].Installed? {
      assert log[..k] == log[..j - 1][..k];
      SeenGrows(start, log, k, j - 1, old');
    } else {
      SupersededForGood(start, log, k, i, j - 1);
    }
  }

  /** No refresh token is sent once a successor of it has been installed. */
  lemma {:induction false} NoSupersededTokenSent(start: Provider, actions: seq<Action>, p: Provider, k: nat, i: nat, j: nat)
    requires Runs(start, actions, p) && k <= i < j < |p.log| && p.log[i].Installed? && p.log[j].Sent?
    ensures p.log[j].token != Current(start.tokens, p.log[..k]).refresh
    ensures p.log[j].token == Current(start.tokens, p.log[..j]).refresh
  {
    hide Runs, Current, Seen;
    RunKeeps(start, actions, p);
    SupersededForGood(start.tokens, p.log, k, i, j);
  }

  /**
   * A call that refreshes only when needed sends nothing while the pair installed last is good for more
   * than a minute, however long it waited for the lock.
   */
  lemma {:induction false} WaitersSendNothing(start: Provider, actions: seq<Action>, p: Provider, j: nat)
    requires Runs(start, actions, p) && j < |p.log| && p.log[j].Sent? && !p.log[j].forced
    ensures Needs(Current(start.tokens, p.log[..j]), p.log[j].at)
  {
    hide Runs, Current, Seen;
    RunKeeps(start, actions, p);
  }

  /** At most one refresh is under way at a time. */
  lemma {:induction false} SingleFlight(start: Provider, actions: seq<Action>, p: Provider, i: nat, j: nat)
    requires Runs(start, actions, p) && i < |p.calls| && j < |p.calls| && p.calls[i].InFlight? && p.calls[j].InFlight?
    ensures i == j
  {
    hide Runs, Current, Seen;
    RunKeeps(start, actions, p);
    assert Holds(p.calls[i]) && Holds(p.calls[j]);
  }

  /** Whenever no call is between installing and counting, the revision is the number of installed rotations. */
  lemma {:induction false} RevisionCountsRotations(start: Provider, actions: seq<Action>, p: Provider)
    requires Runs(start, actions, p) && forall i :: 0 <= i < |p.calls| ==> !p.calls[i].Counting?
    ensures p.revision == Installs(p.log) && p.tokens == Current(start.tokens, p.log)
  {
    hide Runs, Current, Seen;
    RunKeeps(start, actions, p);
  }
}
