/**
  The sliding-window rate limiter: per key, the accepted call times it still remembers. Calls pass through
  a lock one after another, each with the time it read; the clock does not run backwards.
*/
module RateLimiter {
  import opened Numeric

  type Key = string
  type Time = nat

  // ----- the limiter

  /** The remembered times not older than the window. */
  function Retain(history: seq<Time>, now: Time, window: nat): seq<Time> {
    if history == [] then []
    else
      var n := |history| - 1;
      var front := Retain(history[..n], now, window);
      if SaturatingSub(now, history[n]) <= window then front + [history[n]] else front
  }

  class Limiter {
    const window: nat
    const maxRequests: u32
    var requests: map<Key, seq<Time>>

    constructor (window: nat, maxRequests: u32)
      ensures this.window == window && this.maxRequests == maxRequests && requests == map[]
    {
      this.window, this.maxRequests := window, maxRequests;
      requests := map[];
    }

    /** Prunes the key's history in place; accepts and records the call if fewer than the limit remain. */
    method CheckRateLimit(ip: Key, now: Time) returns (accepted: bool)
      modifies this`requests
      ensures accepted == Accepts(window, maxRequests, old(requests), Call(ip, now))
      ensures requests == After(window, maxRequests, old(requests), Call(ip, now))
    {
      var history := if ip in requests then requests[ip] else [];
      history := RetainRecent(history, now);
      if |history| % (U32_MAX + 1) >= maxRequests {
        requests := requests[ip := history];
        return false;
      }
      requests := requests[ip := history + [now]];
      return true;
    }

    method RetainRecent(history: seq<Time>, now: Time) returns (kept: seq<Time>)
      ensures kept == Retain(history, now, window)
    {
      kept := [];
      for i := 0 to |history|
        invariant kept == Retain(history[..i], now, window)
      {
        assert history[..i + 1][..i] == history[..i];
        if SaturatingSub(now, history[i]) <= window {
          kept := kept + [history[i]];
        }
      }
      assert history[..|history|] == history;
    }
  }

  // ----- the limiter as a state machine

  datatype Call = Call(ip: Key, now: Time)

  function Remembered(requests: map<Key, seq<Time>>, ip: Key): seq<Time> {
    if ip in requests then requests[ip] else []
  }

  /** One key at one call: the length of what is retained is cast to u32 before it is compared. */
  predicate Admits(window: nat, max: u32, history: seq<Time>, now: Time) {
    |Retain(history, now, window)| % (U32_MAX + 1) < max
  }

  function NextHistory(window: nat, max: u32, history: seq<Time>, now: Time): seq<Time> {
    if Admits(window, max, history, now) then Retain(history, now, window) + [now] else Retain(history, now, window)
  }

  predicate Accepts(window: nat, max: u32, requests: map<Key, seq<Time>>, c: Call) {
    Admits(window, max, Remembered(requests, c.ip), c.now)
  }

  function After(window: nat, max: u32, requests: map<Key, seq<Time>>, c: Call): map<Key, seq<Time>> {
    requests[c.ip := NextHistory(window, max, Remembered(requests, c.ip), c.now)]
  }

  function Run(window: nat, max: u32, cs: seq<Call>): map<Key, seq<Time>> {
    if cs == [] then map[]
    else After(window, max, Run(window, max, cs[..|cs| - 1]), cs[|cs| - 1])
  }

  /** The times of all accepted calls of a key, never pruned. */
  function Accepted(window: nat, max: u32, cs: seq<Call>, ip: Key): seq<Time> {
    if cs == [] then []
    else
      var n := |cs| - 1;
      var before := Accepted(window, max, cs[..n], ip);
      if cs[n].ip == ip && Accepts(window, max, Run(window, max, cs[..n]), cs[n]) then before + [cs[n].now] else before
  }

  // ----- one key alone

  /** What a limiter remembers that only ever sees one key's calls. */
  function History(window: nat, max: u32, times: seq<Time>): seq<Time> {
    if times == [] then []
    else NextHistory(window, max, History(window, max, times[..|times| - 1]), times[|times| - 1])
  }

  function AcceptedTimes(window: nat, max: u32, times: seq<Time>): seq<Time> {
    if times == [] then []
    else
      var n := |times| - 1;
      var before := AcceptedTimes(window, max, times[..n]);
      if Admits(window, max, History(window, max, times[..n]), times[n]) then before + [times[n]] else before
  }

  /** The times at which a key calls. */
  function TimesOf(cs: seq<Call>, ip: Key): seq<Time> {
    if cs == [] then []
    else
      var n := |cs| - 1;
      if cs[n].ip == ip then TimesOf(cs[..n], ip) + [cs[n].now] else TimesOf(cs[..n], ip)
  }

  lemma AloneAppend(window: nat, max: u32, times: seq<Time>, now: Time)
    ensures var history := History(window, max, times); var before := AcceptedTimes(window, max, times);
            && History(window, max, times + [now]) == NextHistory(window, max, history, now)
            && AcceptedTimes(window, max, times + [now]) ==
               if Admits(window, max, history, now) then before + [now] else before
  {
    assert (times + [now])[..|times|] == times;
  }

  /** Keys do not affect each other: in any run a key fares exactly as if it were alone. */
  lemma {:induction false} KeysAreIndependent(window: nat, max: u32, cs: seq<Call>, ip: Key)
    ensures Remembered(Run(window, max, cs), ip) == History(window, max, TimesOf(cs, ip))
    ensures Accepted(window, max, cs, ip) == AcceptedTimes(window, max, TimesOf(cs, ip))
  {
    if cs != [] {
      var n := |cs| - 1;
      KeysAreIndependent(window, max, cs[..n], ip);
      if cs[n].ip == ip {
        AloneAppend(window, max, TimesOf(cs[..n], ip), cs[n].now);
      }
    }
  }

  predicate Rising(times: seq<Time>) {
    forall i, k | 0 <= i < k < |times| :: times[i] <= times[k]
  }

  predicate Monotone(cs: seq<Call>) {
    forall i, k | 0 <= i < k < |cs| :: cs[i].now <= cs[k].now
  }

  // ----- counting in windows

  /** How many of the times lie in the closed interval. */
  function CountIn(times: seq<Time>, lo: int, hi: int): nat {
    if times == [] then 0
    else CountIn(times[..|times| - 1], lo, hi) + if lo <= times[|times| - 1] <= hi then 1 else 0
  }

  lemma CountAppend(times: seq<Time>, t: Time, lo: int, hi: int)
    ensures CountIn(times + [t], lo, hi) == CountIn(times, lo, hi) + if lo <= t <= hi then 1 else 0
  {
    assert (times + [t])[..|times|] == times;
  }

  /** A narrower interval holds no more. */
  lemma {:induction false} CountNarrower(times: seq<Time>, lo: int, hi: int, lo': int, hi': int)
    requires lo' <= lo
    requires forall i | 0 <= i < |times| :: times[i] <= hi ==> times[i] <= hi'
    ensures CountIn(times, lo, hi) <= CountIn(times, lo', hi')
  {
    if times != [] {
      var n := |times| - 1;
      CountNarrower(times[..n], lo, hi, lo', hi');
    }
  }

  predicate UpTo(times: seq<Time>, now: Time) {
    forall i | 0 <= i < |times| :: times[i] <= now
  }

  /** The retained times are exactly those in the window before `now`. */
  lemma {:induction false} RetainCounts(times: seq<Time>, now: Time, window: nat)
    requires UpTo(times, now)
    ensures |Retain(times, now, window)| == CountIn(times, now - window, now)
  {
    if times != [] {
      var n := |times| - 1;
      RetainCounts(times[..n], now, window);
    }
  }

  /** Pruning at an earlier time first makes no difference. */
  lemma {:induction false} RetainTwice(times: seq<Time>, earlier: Time, now: Time, window: nat)
    requires earlier <= now
    ensures Retain(Retain(times, earlier, window), now, window) == Retain(times, now, window)
  {
    if times != [] {
      var n := |times| - 1;
      RetainTwice(times[..n], earlier, now, window);
      var front := Retain(times[..n], earlier, window);
      assert (front + [times[n]])[..|front|] == front;
    }
  }

  lemma RetainAppend(times: seq<Time>, t: Time, now: Time, window: nat)
    ensures Retain(times + [t], now, window) ==
            if SaturatingSub(now, t) <= window then Retain(times, now, window) + [t] else Retain(times, now, window)
  {
    assert (times + [t])[..|times|] == times;
  }

  // ----- what the limiter remembers

  lemma {:induction false} AcceptedUpTo(window: nat, max: u32, times: seq<Time>, now: Time)
    requires UpTo(times, now)
    ensures UpTo(AcceptedTimes(window, max, times), now)
  {
    if times != [] {
      var n := |times| - 1;
      AcceptedUpTo(window, max, times[..n], now);
    }
  }

  /** What one call prunes and adds makes the same difference to the remembered and to the full history. */
  lemma StillEnough(window: nat, max: u32, history: seq<Time>, full: seq<Time>, call: Time, now: Time)
    requires call <= now && Retain(history, now, window) == Retain(full, now, window)
    ensures Retain(NextHistory(window, max, history, call), now, window) ==
            Retain(if Admits(window, max, history, call) then full + [call] else full, now, window)
  {
    RetainTwice(history, call, now, window);
    RetainAppend(Retain(history, call, window), call, now, window);
    RetainAppend(full, call, now, window);
  }

  /** Whatever was pruned no longer matters: at any later time the same calls are retained. */
  lemma {:induction false} RemembersEnough(window: nat, max: u32, times: seq<Time>, now: Time)
    requires UpTo(times, now)
    ensures Retain(History(window, max, times), now, window) == Retain(AcceptedTimes(window, max, times), now, window)
  {
    if times != [] {
      var n := |times| - 1;
      RemembersEnough(window, max, times[..n], now);
      StillEnough(window, max, History(window, max, times[..n]), AcceptedTimes(window, max, times[..n]), times[n], now);
    }
  }

  lemma {:induction false} RetainShrinks(times: seq<Time>, now: Time, window: nat)
    ensures |Retain(times, now, window)| <= |times|
  {
    if times != [] {
      RetainShrinks(times[..|times| - 1], now, window);
    }
  }

  /** The cast never bites: a key never remembers more calls than the limit. */
  lemma {:induction false} RemembersAtMostLimit(window: nat, max: u32, times: seq<Time>)
    ensures |History(window, max, times)| <= max
  {
    if times != [] {
      var n := |times| - 1;
      RemembersAtMostLimit(window, max, times[..n]);
      RetainShrinks(History(window, max, times[..n]), times[n], window);
    }
  }

  // ----- the guarantees

  /** Fewer than the limit among the given times lie in the window before `now`. */
  predicate HasRoom(window: nat, max: u32, times: seq<Time>, now: Time) {
    CountIn(times, now - window, now) < max
  }

  /** For a history within the limit the cast changes nothing. */
  lemma AdmitsByLength(window: nat, max: u32, history: seq<Time>, now: Time)
    requires |history| <= max
    ensures Admits(window, max, history, now) <==> |Retain(history, now, window)| < max
  {
    RetainShrinks(history, now, window);
  }

  lemma RetainedInWindow(window: nat, max: u32, times: seq<Time>, now: Time)
    requires UpTo(times, now)
    ensures |Retain(History(window, max, times), now, window)| ==
            CountIn(AcceptedTimes(window, max, times), now - window, now)
  {
    AcceptedUpTo(window, max, times, now);
    RemembersEnough(window, max, times, now);
    RetainCounts(AcceptedTimes(window, max, times), now, window);
  }

  lemma AdmitsIff(window: nat, max: u32, times: seq<Time>, now: Time)
    requires UpTo(times, now)
    ensures Admits(window, max, History(window, max, times), now) <==>
            HasRoom(window, max, AcceptedTimes(window, max, times), now)
  {
    RemembersAtMostLimit(window, max, times);
    AdmitsByLength(window, max, History(window, max, times), now);
    RetainedInWindow(window, max, times, now);
  }

  lemma {:induction false} AloneWithinLimit(window: nat, max: u32, times: seq<Time>, start: int)
    requires Rising(times)
    ensures CountIn(AcceptedTimes(window, max, times), start, start + window) <= max
  {
    if times != [] {
      var n := |times| - 1;
      var front, now := times[..n], times[n];
      var before := AcceptedTimes(window, max, front);
      AloneWithinLimit(window, max, front, start);
      if Admits(window, max, History(window, max, front), now) {
        AdmitsIff(window, max, front, now);
        AcceptedUpTo(window, max, front, now);
        OneMoreWithinLimit(window, max, before, now, start);
      }
    }
  }

  /** The window that ends at an admitted call covers all that an interval around it can hold. */
  lemma OneMoreWithinLimit(window: nat, max: u32, before: seq<Time>, now: Time, start: int)
    requires UpTo(before, now) && HasRoom(window, max, before, now)
    requires CountIn(before, start, start + window) <= max
    ensures CountIn(before + [now], start, start + window) <= max
  {
    CountAppend(before, now, start, start + window);
    if start <= now <= start + window {
      CountNarrower(before, start, start + window, now - window, now);
    }
  }

  /** No call is later than `now`. */
  predicate Past(cs: seq<Call>, now: Time) {
    forall i | 0 <= i < |cs| :: cs[i].now <= now
  }

  lemma {:induction false} OwnTimesRise(cs: seq<Call>, ip: Key, now: Time)
    requires Monotone(cs) && Past(cs, now)
    ensures Rising(TimesOf(cs, ip)) && UpTo(TimesOf(cs, ip), now)
  {
    if cs != [] {
      var n := |cs| - 1;
      OwnTimesRise(cs[..n], ip, cs[n].now);
    }
  }

  /** With a clock that never runs back, a call is accepted exactly when fewer than the limit were accepted in the window before it. */
  lemma AcceptedIff(window: nat, max: u32, cs: seq<Call>, c: Call)
    requires Monotone(cs) && Past(cs, c.now)
    ensures Accepts(window, max, Run(window, max, cs), c) <==>
            HasRoom(window, max, Accepted(window, max, cs, c.ip), c.now)
  {
    KeysAreIndependent(window, max, cs, c.ip);
    OwnTimesRise(cs, c.ip, c.now);
    AdmitsIff(window, max, TimesOf(cs, c.ip), c.now);
  }

  /** No closed interval as long as the window ever holds more accepted calls of a key than the limit. */
  lemma WindowLimit(window: nat, max: u32, cs: seq<Call>, ip: Key, start: int)
    requires Monotone(cs)
    ensures CountIn(Accepted(window, max, cs, ip), start, start + window) <= max
  {
    KeysAreIndependent(window, max, cs, ip);
    if cs != [] {
      OwnTimesRise(cs, ip, cs[|cs| - 1].now);
    }
    AloneWithinLimit(window, max, TimesOf(cs, ip), start);
  }

  /** Retaining keeps, in order, what is no older than the window. */
  lemma {:induction false} RetainHas(history: seq<Time>, now: Time, window: nat, t: Time)
    ensures t in Retain(history, now, window) <==> t in history && now <= t + window
  {
    if history != [] {
      var n := |history| - 1;
      RetainHas(history[..n], now, window, t);
      assert history == history[..n] + [history[n]];
    }
  }

  lemma RemembersOwn(window: nat, max: u32, times: seq<Time>, now: Time)
    requires UpTo(times, now)
    ensures History(window, max, times + [now]) == Retain(AcceptedTimes(window, max, times + [now]), now, window)
  {
    AloneAppend(window, max, times, now);
    RemembersEnough(window, max, times, now);
    RetainAppend(AcceptedTimes(window, max, times), now, now, window);
  }

  /**
    After each call, refused or not, exactly the accepted calls of its key within the window are remembered,
    in order; the memory of every other key stays as it was.
  */
  lemma RemembersExactly(window: nat, max: u32, cs: seq<Call>, c: Call, other: Key)
    requires Monotone(cs) && Past(cs, c.now)
    ensures Remembered(Run(window, max, cs + [c]), c.ip) ==
            Retain(Accepted(window, max, cs + [c], c.ip), c.now, window)
    ensures other != c.ip ==>
              Remembered(Run(window, max, cs + [c]), other) == Remembered(Run(window, max, cs), other)
  {
    assert (cs + [c])[..|cs|] == cs;
    OwnTimesRise(cs, c.ip, c.now);
    KeysAreIndependent(window, max, cs + [c], c.ip);
    RemembersOwn(window, max, TimesOf(cs, c.ip), c.now);
  }
}
