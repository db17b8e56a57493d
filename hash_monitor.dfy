/** `monitorWindowForHash`: one poll session, driven by the interval
    callback. The browser is replaced by an observation handed to each
    tick, the promise by a first-wins outcome field, and `clearInterval`
    by a flag that makes later ticks do nothing. */
module HashMonitor {

  /** `WindowUtils.POLLING_INTERVAL_MS`. */
  const PollIntervalMs: nat := 50

  /** Reading `contentWindow.location.href`: it throws across origins;
      otherwise it yields the URL, the window's `location.hash`, and the
      verdict of `UrlUtils.urlContainsHash` on that URL. */
  datatype Read = Threw | Href(href: string, hash: string, containsHash: bool)

  /** What one tick sees of the monitored window. */
  datatype Observation = Observation(closed: bool, read: Read)

  /** How the session's promise settles. */
  datatype Outcome =
    | Pending
    | ResolvedHash(hash: string)          // resolve(location.hash)
    | ResolvedClosed                      // resolve() with no value
    | RejectedTimeout                     // reject(createTokenRenewalTimeoutError())

  /** The session's state: the same-origin tick counter, whether the
      interval is still scheduled, and the promise's outcome. */
  datatype Session = Session(ticks: nat, scheduled: bool, outcome: Outcome)

  /** The state right after `setInterval`. */
  const Start := Session(0, true, Pending)

  /** `!href || href === "about:blank"`: nothing to process on this tick. */
  predicate Unobservable(read: Read)
  {
    read.Threw? || read.href == "" || read.href == "about:blank"
  }

  /** `ticks > maxTicks` with `maxTicks = timeout / POLLING_INTERVAL_MS`
      taken as an exact quotient, stated without division. */
  predicate DeadlinePassed(timeout: nat, ticks: nat)
  {
    ticks * PollIntervalMs > timeout
  }

  /** The first same-origin tick count at which the deadline has passed. */
  function TimeoutTick(timeout: nat): (t: nat)
    ensures DeadlinePassed(timeout, t)
    ensures forall k: nat :: k < t ==> !DeadlinePassed(timeout, k)
  {
    timeout / PollIntervalMs + 1
  }

  /** Cancel the interval and settle the promise; a promise that has
      already settled keeps its outcome. */
  function Settle(s: Session, o: Outcome): Session
  {
    Session(s.ticks, false, if s.outcome.Pending? then o else s.outcome)
  }

  /** One run of the interval callback. A cancelled session ignores it; the
      counter advances by at most one; an outcome, once set, is kept; and
      a tick that changes the outcome also cancels polling. */
  function Step(timeout: nat, s: Session, obs: Observation): (r: Session)
    ensures !s.scheduled ==> r == s
    ensures r.ticks == s.ticks || r.ticks == s.ticks + 1
    ensures !s.outcome.Pending? ==> r.outcome == s.outcome
    ensures r.outcome != s.outcome ==> !r.scheduled
  {
    if !s.scheduled then s
    else
      var s1 := if obs.closed then Settle(s, ResolvedClosed) else s;
      if Unobservable(obs.read) then s1
      else
        var s2 := s1.(ticks := s1.ticks + 1);
        if obs.read.containsHash then Settle(s2, ResolvedHash(obs.read.hash))
        else if DeadlinePassed(timeout, s2.ticks) then Settle(s2, RejectedTimeout)
        else s2
  }

  /** Consecutive ticks. */
  function Run(timeout: nat, s: Session, obs: seq<Observation>): Session
    decreases |obs|
  {
    if |obs| == 0 then s else Run(timeout, Step(timeout, s, obs[0]), obs[1..])
  }

  /** The session invariant: the interval is scheduled exactly while the
      promise is pending; a pending session is within its deadline; the
      counter never passes the first tick past the deadline, and a
      timed-out session stopped exactly on that tick. */
  ghost predicate Inv(timeout: nat, s: Session)
  {
    (s.scheduled <==> s.outcome.Pending?) &&
    (s.outcome.Pending? ==> !DeadlinePassed(timeout, s.ticks)) &&
    s.ticks <= TimeoutTick(timeout) &&
    (s.outcome.RejectedTimeout? ==> s.ticks == TimeoutTick(timeout))
  }

  lemma StartInv(timeout: nat)
    ensures Inv(timeout, Start)
  {
  }

  lemma StepInv(timeout: nat, s: Session, obs: Observation)
    requires Inv(timeout, s)
    ensures Inv(timeout, Step(timeout, s, obs))
  {
  }

  /** A tick that cannot read the location, or reads a blank one, leaves
      the counter alone and can neither resolve with a hash nor time out. */
  lemma UnobservableTick(timeout: nat, s: Session, obs: Observation)
    requires Unobservable(obs.read)
    ensures Step(timeout, s, obs).ticks == s.ticks
    ensures s.outcome.Pending? ==> Step(timeout, s, obs).outcome in {Pending, ResolvedClosed}
    ensures !obs.closed ==> Step(timeout, s, obs) == s
  {
  }

  /** A readable tick of a scheduled session advances the counter by
      exactly one; a URL carrying a hash resolves with `location.hash`
      and cancels polling. */
  lemma ReadableTick(timeout: nat, s: Session, obs: Observation)
    requires s.scheduled && !Unobservable(obs.read)
    ensures Step(timeout, s, obs).ticks == s.ticks + 1
    ensures obs.read.containsHash && !obs.closed && s.outcome.Pending? ==>
      Step(timeout, s, obs) == Session(s.ticks + 1, false, ResolvedHash(obs.read.hash))
  {
  }

  /** A pending session times out on a tick exactly when the tick is
      readable, carries no hash, the window is open and the incremented
      counter has passed the deadline. */
  lemma TimeoutTickExactly(timeout: nat, s: Session, obs: Observation)
    requires Inv(timeout, s) && s.outcome.Pending?
    ensures Step(timeout, s, obs).outcome.RejectedTimeout? <==>
      !obs.closed && !Unobservable(obs.read) && !obs.read.containsHash && DeadlinePassed(timeout, s.ticks + 1)
    ensures Step(timeout, s, obs).outcome.RejectedTimeout? ==> !Step(timeout, s, obs).scheduled
  {
  }

  /** A closed window settles a pending session with no value and cancels
      polling, whatever the rest of the same tick observes. */
  lemma ClosedWins(timeout: nat, s: Session, obs: Observation)
    requires s.outcome.Pending? && s.scheduled && obs.closed
    ensures Step(timeout, s, obs).outcome == ResolvedClosed
    ensures !Step(timeout, s, obs).scheduled
  {
  }

  /** Once the interval is cancelled, no further tick has any effect. */
  lemma {:induction false} CancelledIsFinal(timeout: nat, s: Session, obs: seq<Observation>)
    requires !s.scheduled
    ensures Run(timeout, s, obs) == s
    decreases |obs|
  {
    if |obs| > 0 {
      CancelledIsFinal(timeout, Step(timeout, s, obs[0]), obs[1..]);
    }
  }

  /** A session reaches at most one outcome: once settled, it keeps that
      outcome through any further ticks. */
  lemma {:induction false} SettledIsFinal(timeout: nat, s: Session, obs: seq<Observation>)
    requires Inv(timeout, s) && !s.outcome.Pending?
    ensures Run(timeout, s, obs).outcome == s.outcome
  {
    CancelledIsFinal(timeout, s, obs);
  }

  /** A window that is never readable (cross-origin or blank) never
      advances the counter, so a pending session watching it can only
      stay pending or resolve because the window closed: it never
      resolves with a hash and never times out; while it stays open,
      nothing changes at all. */
  lemma {:induction false} NeverObservableNeverTimesOut(timeout: nat, s: Session, obs: seq<Observation>)
    requires s.outcome.Pending?
    requires forall i :: 0 <= i < |obs| ==> Unobservable(obs[i].read)
    ensures Run(timeout, s, obs).ticks == s.ticks
    ensures Run(timeout, s, obs).outcome in {Pending, ResolvedClosed}
    ensures (forall i :: 0 <= i < |obs| ==> !obs[i].closed) ==> Run(timeout, s, obs) == s
    decreases |obs|
  {
    if |obs| > 0 {
      var s' := Step(timeout, s, obs[0]);
      if s'.outcome.Pending? {
        NeverObservableNeverTimesOut(timeout, s', obs[1..]);
      } else {
        CancelledIsFinal(timeout, s', obs[1..]);
      }
    }
  }

  /** An open, same-origin window whose URL never carries a hash. */
  predicate Stalled(o: Observation)
  {
    !o.closed && !Unobservable(o.read) && !o.read.containsHash
  }

  /** Stalled ticks from a pending session stay pending while the counter
      is within the deadline ... */
  lemma {:induction false} StalledWithinDeadline(timeout: nat, s: Session, obs: seq<Observation>)
    requires Inv(timeout, s) && s.outcome.Pending?
    requires forall i :: 0 <= i < |obs| ==> Stalled(obs[i])
    requires !DeadlinePassed(timeout, s.ticks + |obs|)
    ensures Run(timeout, s, obs) == Session(s.ticks + |obs|, true, Pending)
    decreases |obs|
  {
    if |obs| > 0 {
      StalledWithinDeadline(timeout, Step(timeout, s, obs[0]), obs[1..]);
    }
  }

  /** ... and a fresh session watching a stalled window is rejected on
      exactly tick `timeout / 50 + 1`, never earlier. */
  lemma TimesOutOnDeadlineTick(timeout: nat, obs: seq<Observation>)
    requires forall i :: 0 <= i < |obs| ==> Stalled(obs[i])
    ensures |obs| < TimeoutTick(timeout) ==> Run(timeout, Start, obs) == Session(|obs|, true, Pending)
    ensures |obs| >= TimeoutTick(timeout) ==> Run(timeout, Start, obs) == Session(TimeoutTick(timeout), false, RejectedTimeout)
  {
    var t := TimeoutTick(timeout);
    if |obs| < t {
      StalledWithinDeadline(timeout, Start, obs);
    } else {
      var before, rest := obs[..t - 1], obs[t - 1..];
      assert obs == before + rest;
      StalledWithinDeadline(timeout, Start, before);
      RunAppend(timeout, Start, before, rest);
      var s := Step(timeout, Session(t - 1, true, Pending), rest[0]);
      assert s == Session(t, false, RejectedTimeout);
      CancelledIsFinal(timeout, s, rest[1..]);
    }
  }

  lemma {:induction false} RunAppend(timeout: nat, s: Session, a: seq<Observation>, b: seq<Observation>)
    ensures Run(timeout, s, a + b) == Run(timeout, Run(timeout, s, a), b)
    decreases |a|
  {
    if |a| == 0 {
      assert a + b == b;
    } else {
      assert (a + b)[0] == a[0] && (a + b)[1..] == a[1..] + b;
      RunAppend(timeout, Step(timeout, s, a[0]), a[1..], b);
    }
  }

  /** One monitoring call: the state the interval callback closes over. */
  class PollSession {
    const timeout: nat
    var ticks: nat
    var scheduled: bool
    var outcome: Outcome

    function State(): Session
      reads this
    {
      Session(ticks, scheduled, outcome)
    }

    ghost predicate Valid()
      reads this
    {
      Inv(timeout, State())
    }

    /** `monitorWindowForHash(contentWindow, timeout)` up to `setInterval`. */
    constructor (timeout: nat)
      ensures Valid() && this.timeout == timeout && State() == Start
    {
      this.timeout := timeout;
      ticks := 0;
      scheduled := true;
      outcome := Pending;
    }

    /** `resolve`/`reject`: only the first call settles the promise. */
    method SettlePromise(o: Outcome)
      modifies this`outcome
      ensures outcome == if old(outcome).Pending? then o else old(outcome)
    {
      if outcome.Pending? {
        outcome := o;
      }
    }

    /** The interval callback, given what this tick observes. */
    method Tick(obs: Observation)
      requires Valid()
      modifies this
      ensures Valid()
      ensures State() == Step(timeout, old(State()), obs)
    {
      StepInv(timeout, State(), obs);
      if !scheduled {
        return;
      }
      if obs.closed {
        scheduled := false;
        SettlePromise(ResolvedClosed);
      }
      if Unobservable(obs.read) {
        return;
      }
      ticks := ticks + 1;
      if obs.read.containsHash {
        scheduled := false;
        SettlePromise(ResolvedHash(obs.read.hash));
      } else if ticks * PollIntervalMs > timeout {
        scheduled := false;
        SettlePromise(RejectedTimeout);
      }
    }
  }
}
