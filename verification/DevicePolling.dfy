/**
 The device-code login: polling for one device code until it expires, waiting five seconds
 longer after every request to slow down (section 3.5 of RFC 8628). Times are real
 numbers of seconds on a clock that only moves forward.
 */
module DevicePolling {

  /** The reply to a poll: credentials, a request to slow down (or status 429), or any other error. */
  datatype Reply = Granted | SlowDown | Retry

  const STEP := 5

  type Duration = r: real | r >= 0.0

  /** What the outside world does: the replies, how far each sleep overruns and how long each poll takes. */
  datatype World = World(reply: nat -> Reply, overrun: nat -> Duration, latency: nat -> Duration)

  function SlowDowns(w: World, n: nat): nat {
    if n == 0 then 0 else SlowDowns(w, n - 1) + (if w.reply(n - 1).SlowDown? then 1 else 0)
  }

  /** The interval in force before poll `k`: five seconds, and five more per slow-down so far. */
  function Interval(w: World, k: nat): nat {
    STEP * (1 + SlowDowns(w, k))
  }

  /** When the expiry is checked before poll `k`. */
  function CheckTime(start: real, w: World, k: nat): real {
    if k == 0 then start
    else CheckTime(start, w, k - 1) + Interval(w, k - 1) as real + w.overrun(k - 1) + w.latency(k - 1)
  }

  /** When poll `k` is sent. */
  function PollTime(start: real, w: World, k: nat): real {
    CheckTime(start, w, k) + Interval(w, k) as real + w.overrun(k)
  }

  /** `n` polls happen: each was begun before the code expired, and none before it was granted. */
  ghost predicate Polls(start: real, expiresAt: real, w: World, n: nat) {
    forall k :: 0 <= k < n ==> CheckTime(start, w, k) < expiresAt && (k > 0 ==> !w.reply(k - 1).Granted?)
  }

  /** The polls before poll `n` that were answered with a request to slow down. */
  ghost function SlowedBy(w: World, n: nat): set<nat> {
    set k | 0 <= k < n && w.reply(k).SlowDown?
  }

  lemma {:induction false} SlowDownsCounted(w: World, n: nat)
    ensures SlowDowns(w, n) == |SlowedBy(w, n)|
  {
    if n == 0 {
    } else {
      SlowDownsCounted(w, n - 1);
      assert SlowedBy(w, n) == SlowedBy(w, n - 1) + (if w.reply(n - 1).SlowDown? then {n - 1} else {});
    }
  }

  /**
   Apart from sleeps that overrun and polls that take time, each poll comes exactly five
   seconds after the one before it, and five more for every request so far to slow down.
   */
  lemma PollsSpaced(start: real, w: World, k: nat)
    ensures PollTime(start, w, 0) == start + 5.0 + w.overrun(0)
    ensures PollTime(start, w, k) >= start + 5.0
    ensures k > 0 ==>
              PollTime(start, w, k) - PollTime(start, w, k - 1)
              == 5.0 * (1 + |SlowedBy(w, k)|) as real + w.overrun(k) + w.latency(k - 1)
  {
    SlowDownsCounted(w, k);
    if k > 0 {
      PollsSpaced(start, w, k - 1);
    }
  }

  /** The intervals before the first `n` polls, added up. */
  function Waited(w: World, n: nat): nat {
    if n == 0 then 0 else Waited(w, n - 1) + Interval(w, n - 1)
  }

  lemma {:induction false} CheckedNoEarlier(start: real, w: World, k: nat)
    ensures CheckTime(start, w, k) >= start + Waited(w, k) as real
  {
    if k == 0 {
    } else {
      CheckedNoEarlier(start, w, k - 1);
    }
  }

  lemma {:induction false} WaitedAtLeast(w: World, n: nat)
    ensures Waited(w, n) >= STEP * n
  {
    if n == 0 {
    } else {
      WaitedAtLeast(w, n - 1);
    }
  }

  lemma {:induction false} AllSlowDowns(w: World, n: nat)
    requires forall k :: 0 <= k < n ==> w.reply(k).SlowDown?
    ensures SlowDowns(w, n) == n
  {
    if n == 0 {
    } else {
      AllSlowDowns(w, n - 1);
    }
  }

  lemma {:induction false} WaitedAllSlow(w: World, n: nat)
    requires forall k :: 0 <= k < n ==> w.reply(k).SlowDown?
    ensures 2 * Waited(w, n) == STEP * (n * (n + 1))
  {
    if n == 0 {
    } else {
      WaitedAllSlow(w, n - 1);
      AllSlowDowns(w, n - 1);
      assert n * (n + 1) == (n - 1) * n + 2 * n;
    }
  }

  /** The intervals before all polls but the last fit in the life of the code. */
  lemma PollsFit(start: real, expiresIn: int, w: World, n: nat)
    requires n > 0 && Polls(start, start + expiresIn as real, w, n)
    ensures Waited(w, n - 1) < expiresIn
  {
    CheckedNoEarlier(start, w, n - 1);
    assert CheckTime(start, w, n - 1) < start + expiresIn as real;
  }

  /** There are at most ceil(expiresIn / 5) polls for one code, and none for a code expired at once. */
  lemma PollsBounded(start: real, expiresIn: int, w: World, n: nat)
    requires Polls(start, start + expiresIn as real, w, n)
    ensures n <= if expiresIn > 0 then (expiresIn + 4) / 5 else 0
  {
    if n > 0 {
      PollsFit(start, expiresIn, w, n);
      WaitedAtLeast(w, n - 1);
    }
  }

  /** If every reply is a slow-down, an n-th poll implies 5 * n * (n - 1) / 2 < expiresIn. */
  lemma SlowedPollsBounded(start: real, expiresIn: int, w: World, n: nat)
    requires n > 0 && Polls(start, start + expiresIn as real, w, n)
    requires forall k :: 0 <= k < n - 1 ==> w.reply(k).SlowDown?
    ensures 5 * ((n - 1) * n) < 2 * expiresIn
  {
    PollsFit(start, expiresIn, w, n);
    WaitedAllSlow(w, n - 1);
  }

  /** `polls` are the times of the first polls. */
  ghost predicate Timed(polls: seq<real>, start: real, w: World) {
    forall k :: 0 <= k < |polls| ==> polls[k] == PollTime(start, w, k)
  }

  lemma NextCheck(start: real, w: World, k: nat)
    ensures CheckTime(start, w, k + 1) == PollTime(start, w, k) + w.latency(k)
    ensures CheckTime(start, w, k + 1) >= CheckTime(start, w, k) + STEP as real
    ensures Interval(w, k + 1) == if w.reply(k).SlowDown? then Interval(w, k) + STEP else Interval(w, k)
  {
    assert Interval(w, k) >= STEP;
    assert PollTime(start, w, k) >= CheckTime(start, w, k) + STEP as real;
  }

  /** The times of the first `n` polls. */
  ghost function Times(start: real, w: World, n: nat): seq<real> {
    if n == 0 then [] else Times(start, w, n - 1) + [PollTime(start, w, n - 1)]
  }

  /** The loop has got past the check before each of the first `n` polls, and was granted by none but the last. */
  ghost predicate Going(start: real, expiresAt: real, w: World, n: nat) {
    n > 0 ==>
      && Going(start, expiresAt, w, n - 1) && CheckTime(start, w, n - 1) < expiresAt
      && (n > 1 ==> !w.reply(n - 2).Granted?)
  }

  lemma {:induction false} GoingMeans(start: real, expiresAt: real, w: World, n: nat)
    requires Going(start, expiresAt, w, n)
    ensures |Times(start, w, n)| == n && Timed(Times(start, w, n), start, w) && Polls(start, expiresAt, w, n)
  {
    if n == 0 {
    } else {
      GoingMeans(start, expiresAt, w, n - 1);
    }
  }

  /** The polls are spaced as the slow-downs ask, and there are at most ceil(expiresIn / 5) of them. */
  ghost predicate Polite(polls: seq<real>, start: real, expiresIn: int, w: World) {
    && |polls| <= (if expiresIn > 0 then (expiresIn + 4) / 5 else 0)
    && (forall k :: 0 <= k < |polls| ==> polls[k] >= start + 5.0)
    && (forall k :: 0 < k < |polls| ==> polls[k] - polls[k - 1] >= 5.0 * (1 + |SlowedBy(w, k)|) as real)
  }

  lemma PollsArePolite(polls: seq<real>, start: real, expiresIn: int, w: World)
    requires Timed(polls, start, w)
    requires Polls(start, start + expiresIn as real, w, |polls|)
    ensures Polite(polls, start, expiresIn, w)
  {
    PollsBounded(start, expiresIn, w, |polls|);
    forall k | 0 <= k < |polls|
      ensures polls[k] >= start + 5.0
      ensures k > 0 ==> polls[k] - polls[k - 1] >= 5.0 * (1 + |SlowedBy(w, k)|) as real
    {
      PollsSpaced(start, w, k);
    }
  }

  /** Every poll but the first began after the one before it was answered, with the code still good. */
  ghost predicate WhileValid(polls: seq<real>, start: real, expiresIn: int, w: World) {
    && (polls != [] ==> expiresIn > 0)
    && forall k :: 0 <= k < |polls| - 1 ==> polls[k] + w.latency(k) < start + expiresIn as real
  }

  /** The code had expired when the last poll was answered, or at once. */
  ghost predicate Expired(polls: seq<real>, start: real, expiresIn: int, w: World) {
    if polls == [] then expiresIn <= 0
    else polls[|polls| - 1] + w.latency(|polls| - 1) >= start + expiresIn as real
  }

  lemma ChecksAreAfterPolls(polls: seq<real>, start: real, expiresIn: int, w: World)
    requires Timed(polls, start, w) && Polls(start, start + expiresIn as real, w, |polls|)
    ensures WhileValid(polls, start, expiresIn, w)
    ensures Expired(polls, start, expiresIn, w) <==> CheckTime(start, w, |polls|) >= start + expiresIn as real
  {
    forall k | 0 <= k < |polls| - 1 ensures polls[k] + w.latency(k) < start + expiresIn as real {
      NextCheck(start, w, k);
      assert CheckTime(start, w, k + 1) < start + expiresIn as real;
    }
    if polls != [] {
      NextCheck(start, w, |polls| - 1);
      assert CheckTime(start, w, 0) < start + expiresIn as real;
    }
  }

  /** Polls until granted or until the code has expired at a check. */
  method PollUntil(start: real, expiresAt: real, w: World) returns (polls: seq<real>, granted: bool)
    ensures polls == Times(start, w, |polls|) && Going(start, expiresAt, w, |polls|)
    ensures granted <==> polls != [] && w.reply(|polls| - 1).Granted?
    ensures !granted ==> CheckTime(start, w, |polls|) >= expiresAt
  {
    var now, interval := start, STEP;
    polls, granted := [], false;
    while now < expiresAt
      invariant now == CheckTime(start, w, |polls|) && interval == Interval(w, |polls|)
      invariant polls == Times(start, w, |polls|) && Going(start, expiresAt, w, |polls|)
      invariant polls != [] ==> !w.reply(|polls| - 1).Granted?
      decreases expiresAt - now
    {
      var n := |polls|;
      NextCheck(start, w, n);
      now := now + interval as real + w.overrun(n);
      polls := polls + [now];
      match w.reply(n) {
        case Granted => return polls, true;
        case SlowDown => interval := interval + STEP;
        case Retry =>
      }
      now := now + w.latency(n);
    }
  }

  /** The polls with one device code that is good for `expiresIn` seconds. */
  method PollDeviceCode(start: real, expiresIn: int, w: World) returns (polls: seq<real>, granted: bool)
    ensures Timed(polls, start, w)
    ensures Polls(start, start + expiresIn as real, w, |polls|)
    ensures Polite(polls, start, expiresIn, w)
    ensures granted <==> polls != [] && w.reply(|polls| - 1).Granted?
    ensures !granted ==> CheckTime(start, w, |polls|) >= start + expiresIn as real
    ensures WhileValid(polls, start, expiresIn, w)
    ensures !granted ==> Expired(polls, start, expiresIn, w)
  {
    polls, granted := PollUntil(start, start + expiresIn as real, w);
    GoingMeans(start, start + expiresIn as real, w, |polls|);
    PollsArePolite(polls, start, expiresIn, w);
    ChecksAreAfterPolls(polls, start, expiresIn, w);
  }
}
