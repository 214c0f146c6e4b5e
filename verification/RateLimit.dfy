/** Two rate limits that remember the last time they let something through, and the durations of the
    manual liveliness contract. */
module RateLimit {
  import opened Arithmetic
  import opened Text

  // ----- pushing alarm snapshots -----

  predicate Pushes(last: int, now: int) { last == 0 || now - last >= 1000 }

  class SnapshotPusher {
    var lastAlarmGrpcPushMs: int

    constructor ()
      ensures lastAlarmGrpcPushMs == 0
    {
      lastAlarmGrpcPushMs := 0;
    }

    method TickAlarmGrpcSnapshot(enabled: bool, now: int) returns (pushed: bool)
      modifies this
      ensures pushed == (enabled && Pushes(old(lastAlarmGrpcPushMs), now))
      ensures lastAlarmGrpcPushMs == if pushed then now else old(lastAlarmGrpcPushMs)
    {
      if !enabled {
        return false;
      }
      if lastAlarmGrpcPushMs != 0 && now - lastAlarmGrpcPushMs < 1000 {
        return false;
      }
      lastAlarmGrpcPushMs := now;
      return true;
    }
  }

  /** The time remembered after the first n of the clock readings at which the client was enabled. */
  function LastPush(readings: seq<int>, n: nat): int
    requires n <= |readings|
  {
    if n == 0 then 0
    else if Pushes(LastPush(readings, n - 1), readings[n - 1]) then readings[n - 1]
    else LastPush(readings, n - 1)
  }

  predicate PushedAt(readings: seq<int>, i: nat)
    requires i < |readings|
  {
    Pushes(LastPush(readings, i), readings[i])
  }

  ghost predicate Spaced(readings: seq<int>) {
    forall i, j :: 0 <= i < j < |readings| && PushedAt(readings, i) && PushedAt(readings, j)
      ==> readings[j] - readings[i] >= 1000
  }

  /** From a push on, the time remembered is that of a push no earlier, and no lower as long as no
      remembered time is zero. */
  lemma {:induction false} LastPushGrows(readings: seq<int>, i: nat, n: nat)
    requires i < n <= |readings| && PushedAt(readings, i)
    requires forall k :: i <= k < n ==> readings[k] != 0
    ensures LastPush(readings, n) >= readings[i] && LastPush(readings, n) != 0
    decreases n
  {
    if n == i + 1 {
    } else {
      LastPushGrows(readings, i, n - 1);
    }
  }

  /** Whatever the clock does, forwards or backwards, as long as it never reads zero: any two pushes
      are at least a second apart. */
  lemma SpacedIfNonZero(readings: seq<int>)
    requires forall i :: 0 <= i < |readings| ==> readings[i] != 0
    ensures Spaced(readings)
  {
    forall i, j | 0 <= i < j < |readings| && PushedAt(readings, i) && PushedAt(readings, j)
      ensures readings[j] - readings[i] >= 1000
    {
      LastPushGrows(readings, i, j);
    }
  }

  lemma {:induction false} LastPushPositive(readings: seq<int>, n: nat)
    requires n <= |readings| && forall i :: 0 <= i < |readings| ==> readings[i] >= 0
    requires n >= 1 && (readings[0] != 0 || (n >= 2 && readings[1] != 0))
    ensures LastPush(readings, n) > 0
  {
    if n > 1 && (readings[0] != 0 || n > 2) {
      LastPushPositive(readings, n - 1);
    }
    if n == 2 && readings[0] == 0 {
      assert LastPush(readings, 1) == 0;
    }
  }

  lemma {:induction false} LastPushAbove(readings: seq<int>, i: nat, n: nat)
    requires i < n <= |readings| && PushedAt(readings, i)
    requires forall k :: i < k <= n ==> LastPush(readings, k) > 0
    ensures LastPush(readings, n) >= readings[i]
    decreases n
  {
    if n == i + 1 {
    } else {
      LastPushAbove(readings, i, n - 1);
    }
  }

  /** For a clock that is never negative, pushes are spaced iff it does not start at zero, or there is no
      second reading, or the second reading is at least a second. */
  lemma SpacedIff(readings: seq<int>)
    requires forall i :: 0 <= i < |readings| ==> readings[i] >= 0
    ensures Spaced(readings) <==> |readings| < 2 || readings[0] != 0 || readings[1] >= 1000
  {
    if |readings| >= 2 {
      assert LastPush(readings, 0) == 0 && PushedAt(readings, 0);
      assert LastPush(readings, 1) == readings[0];
      if readings[0] == 0 {
        assert PushedAt(readings, 1);
      }
      if readings[0] != 0 || readings[1] >= 1000 {
        forall i, j | 0 <= i < j < |readings| && PushedAt(readings, i) && PushedAt(readings, j)
          ensures readings[j] - readings[i] >= 1000
        {
          if readings[0] != 0 || i > 0 {
            forall k | i < k <= j ensures LastPush(readings, k) > 0 {
              LastPushPositive(readings, k);
            }
            LastPushAbove(readings, i, j);
          } else if j > 1 {
            forall k | 1 < k <= j ensures LastPush(readings, k) > 0 {
              LastPushPositive(readings, k);
            }
            LastPushAbove(readings, 1, j);
          }
        }
      }
    }
  }

  /** A clock that starts at zero defeats the limit. */
  lemma ZeroDefeatsLimit()
    ensures !Spaced([0, 1])
  {
    SpacedIff([0, 1]);
  }

  /** The limit never starves the receiver: at every reading there is a push, then or before, from less
      than a second earlier on the clock. */
  lemma NeverStale(readings: seq<int>, i: nat) returns (k: nat)
    requires i < |readings| && forall j :: 0 <= j < |readings| ==> readings[j] != 0
    ensures k <= i && PushedAt(readings, k) && readings[i] - readings[k] < 1000
  {
    if PushedAt(readings, i) {
      k := i;
    } else {
      k := LastPushWhen(readings, i);
    }
  }

  lemma {:induction false} LastPushWhen(readings: seq<int>, n: nat) returns (k: nat)
    requires n <= |readings| && LastPush(readings, n) != 0
    ensures k < n && PushedAt(readings, k) && LastPush(readings, n) == readings[k]
  {
    if PushedAt(readings, n - 1) {
      k := n - 1;
    } else {
      k := LastPushWhen(readings, n - 1);
    }
  }

  // ----- throttled log lines -----

  datatype LogCall = LogCall(key: string, now: int, intervalMs: int)

  predicate Logs(times: map<string, int>, c: LogCall) {
    c.key !in times || c.now - times[c.key] >= c.intervalMs
  }

  class LogThrottle {
    var times: map<string, int>

    constructor ()
      ensures times == map[]
    {
      times := map[];
    }

    method LogDdsEventThrottled(c: LogCall) returns (logged: bool)
      modifies this
      ensures logged == Logs(old(times), c)
      ensures times == if logged then old(times)[c.key := c.now] else old(times)
    {
      if c.key in times && c.now - times[c.key] < c.intervalMs {
        return false;
      }
      times := times[c.key := c.now];
      return true;
    }
  }

  function TimesAfter(calls: seq<LogCall>, n: nat): map<string, int>
    requires n <= |calls|
  {
    if n == 0 then map[]
    else
      var m := TimesAfter(calls, n - 1);
      if Logs(m, calls[n - 1]) then m[calls[n - 1].key := calls[n - 1].now] else m
  }

  predicate LoggedAt(calls: seq<LogCall>, i: nat)
    requires i < |calls|
  {
    Logs(TimesAfter(calls, i), calls[i])
  }

  lemma {:induction false} TimesGrow(calls: seq<LogCall>, i: nat, n: nat, d: int)
    requires i < n <= |calls| && LoggedAt(calls, i) && d >= 0
    requires forall k :: i < k < n && calls[k].key == calls[i].key ==> calls[k].intervalMs >= d
    ensures calls[i].key in TimesAfter(calls, n) && TimesAfter(calls, n)[calls[i].key] >= calls[i].now
    decreases n
  {
    if n == i + 1 {
    } else {
      TimesGrow(calls, i, n - 1, d);
    }
  }

  /** Two lines logged under one key are apart by the least interval asked for under that key since the
      first, whatever the clock and the other keys do. */
  lemma LinesSpaced(calls: seq<LogCall>, i: nat, j: nat, d: int)
    requires i < j < |calls| && LoggedAt(calls, i) && LoggedAt(calls, j) && calls[i].key == calls[j].key && d >= 0
    requires forall k :: i < k <= j && calls[k].key == calls[i].key ==> calls[k].intervalMs >= d
    ensures calls[j].now - calls[i].now >= d
  {
    TimesGrow(calls, i, j, d);
  }

  /** A key never falls silent: at every call there is a logged one with its key, then or before, from less
      than its interval earlier on the clock. */
  lemma LoggedAgain(calls: seq<LogCall>, i: nat) returns (k: nat)
    requires i < |calls|
    ensures k <= i && calls[k].key == calls[i].key && LoggedAt(calls, k)
    ensures k == i || calls[i].now - calls[k].now < calls[i].intervalMs
  {
    if LoggedAt(calls, i) {
      k := i;
    } else {
      k := LoggedWhen(calls, i, calls[i].key);
    }
  }

  lemma {:induction false} LoggedWhen(calls: seq<LogCall>, n: nat, key: string) returns (k: nat)
    requires n <= |calls| && key in TimesAfter(calls, n)
    ensures k < n && calls[k].key == key && LoggedAt(calls, k) && calls[k].now == TimesAfter(calls, n)[key]
  {
    if LoggedAt(calls, n - 1) && calls[n - 1].key == key {
      k := n - 1;
    } else {
      k := LoggedWhen(calls, n - 1, key);
    }
  }

  function OnlyKey(calls: seq<LogCall>, key: string): seq<LogCall> {
    if calls == [] then []
    else OnlyKey(calls[..|calls| - 1], key) + (if calls[|calls| - 1].key == key then [calls[|calls| - 1]] else [])
  }

  lemma {:induction false} TimesPrefix(calls: seq<LogCall>, n: nat, m: nat)
    requires n <= m <= |calls|
    ensures TimesAfter(calls[..m], n) == TimesAfter(calls, n)
  {
    if n == 0 {
    } else {
      TimesPrefix(calls, n - 1, m);
    }
  }

  /** Keys never affect each other: whether a line is logged depends on the earlier calls with its own
      key alone. */
  lemma {:induction false} KeysIndependent(calls: seq<LogCall>, c: LogCall)
    ensures Logs(TimesAfter(calls, |calls|), c)
            <==> Logs(TimesAfter(OnlyKey(calls, c.key), |OnlyKey(calls, c.key)|), c)
    decreases |calls|
  {
    SameTimes(calls, c.key);
  }

  lemma {:induction false} SameTimes(calls: seq<LogCall>, key: string)
    ensures var m, o := TimesAfter(calls, |calls|), TimesAfter(OnlyKey(calls, key), |OnlyKey(calls, key)|);
            (key in m <==> key in o) && (key in m ==> m[key] == o[key])
  {
    if calls == [] {
    } else {
      var n := |calls| - 1;
      SameTimes(calls[..n], key);
      TimesPrefix(calls, n, n);
      var only := OnlyKey(calls, key);
      if calls[n].key == key {
        assert only[..|only| - 1] == OnlyKey(calls[..n], key);
        TimesPrefix(only, |only| - 1, |only| - 1);
      } else {
        assert only == OnlyKey(calls[..n], key);
      }
    }
  }

  // ----- liveliness durations -----

  const INT32_LIMIT: int := 0x8000_0000
  const UINT32_RANGE: int := 0x1_0000_0000

  datatype Duration = Duration(seconds: int, nanosec: int)

  /** The conversions a static_cast makes: modulo 2^32, into the signed or the unsigned range. */
  function ToUint32(x: int): int { x % UINT32_RANGE }

  function ToInt32(x: int): int {
    if ToUint32(x) < INT32_LIMIT then ToUint32(x) else ToUint32(x) - UINT32_RANGE
  }

  function DurationFromMs(ms: int64): Duration {
    var ms := if ms < 1 then 1 else ms;
    Duration(ToInt32(ms / 1000), ToUint32((ms % 1000) * 1000000))
  }

  function TotalNs(d: Duration): int { d.seconds * 1000000000 + d.nanosec }

  lemma SecondsFit(s: int)
    requires s >= 0
    ensures ToInt32(s) == s <==> s < 0x8000_0000
  {
  }

  lemma NanosecondsFit(r: int)
    requires 0 <= r < 1000
    ensures ToUint32(r * 1000000) == r * 1000000
  {
  }

  /** The duration is that many milliseconds, at least one, iff the seconds fit 32 signed bits; it has less
      than a second of nanoseconds in any case. */
  lemma DurationExactIff(ms: int64)
    ensures 0 <= DurationFromMs(ms).nanosec < 1000000000
    ensures var m := if ms < 1 then 1 else ms; TotalNs(DurationFromMs(ms)) == m * 1000000 <==> m / 1000 < 0x8000_0000
  {
    hide ToInt32, ToUint32;
    var m: int := if ms < 1 then 1 else ms;
    var s, r := m / 1000, m % 1000;
    assert m == s * 1000 + r;
    SecondsFit(s);
    NanosecondsFit(r);
    assert DurationFromMs(ms) == Duration(ToInt32(s), r * 1000000);
  }

  /** Writes the two durations of the contract. */
  class LivelinessQos {
    var announcementPeriod: Duration
    var leaseDuration: Duration

    constructor (announcement: Duration, lease: Duration)
      ensures announcementPeriod == announcement && leaseDuration == lease
    {
      announcementPeriod, leaseDuration := announcement, lease;
    }

    /** For every 32-bit period both durations are exact, and the lease outlasts the announcement period
        by a second or more and the period three times over. */
    method ApplyManualLivelinessQos(periodMs: int)
      requires 0 <= periodMs < UINT32_RANGE
      modifies this
      ensures var announceMs := if periodMs < 200 then 100 else periodMs / 2;
              && TotalNs(announcementPeriod) == announceMs * 1000000
              && TotalNs(leaseDuration) == (if periodMs * 3 < announceMs + 1000 then announceMs + 1000 else periodMs * 3) * 1000000
      ensures TotalNs(leaseDuration) >= TotalNs(announcementPeriod) + 1000000000
      ensures TotalNs(leaseDuration) >= 3 * periodMs * 1000000
    {
      var announceMs := Max(100, periodMs / 2);
      var leaseMs := Max(announceMs + 1000, periodMs * 3);
      DurationExactIff(announceMs);
      DurationExactIff(leaseMs);
      announcementPeriod := DurationFromMs(announceMs);
      leaseDuration := DurationFromMs(leaseMs);
    }
  }
}
