/**
 The fixed-window limiter in its two forms: in memory (ratelimit/ratelimit.go) and as one SQL statement
 (internal/sqlstore/ratelimit.go).
 */
module RateLimit {
  import opened Common

  datatype Bucket = Bucket(count: int, start: int)

  // ---------- in memory

  function AllowOne(b: Option<Bucket>, now: int, limit: int, window: int): (Bucket, bool) {
    if b.None? || now - b.value.start >= window then (Bucket(1, now), true)
    else if b.value.count >= limit then (b.value, false)
    else (b.value.(count := b.value.count + 1), true)
  }

  function Lookup(buckets: map<string, Bucket>, key: string): Option<Bucket> {
    if key in buckets then Some(buckets[key]) else None
  }

  class Memory {
    const limit: int
    const window: int
    var buckets: map<string, Bucket>

    constructor (limit: int, window: int)
      ensures this.limit == limit && this.window == window && buckets == map[]
    {
      this.limit, this.window, buckets := limit, window, map[];
    }

    method Allow(key: string, now: int) returns (ok: bool)
      modifies this
      ensures var r := AllowOne(Lookup(old(buckets), key), now, limit, window);
              ok == r.1 && buckets == old(buckets)[key := r.0]
      ensures ok <==> key !in old(buckets) || now - old(buckets)[key].start >= window || old(buckets)[key].count < limit
      ensures !ok ==> buckets == old(buckets)
      ensures ok ==>
                buckets == old(buckets)[key :=
                  if key !in old(buckets) || now - old(buckets)[key].start >= window then Bucket(1, now)
                  else Bucket(old(buckets)[key].count + 1, old(buckets)[key].start)]
    {
      if key !in buckets || now - buckets[key].start >= window {
        buckets := buckets[key := Bucket(1, now)];
        return true;
      }
      if buckets[key].count >= limit {
        assert buckets == buckets[key := buckets[key]];
        return false;
      }
      buckets := buckets[key := buckets[key].(count := buckets[key].count + 1)];
      return true;
    }
  }

  // ---------- in the database

  /** The upsert: it counts every attempt, also the refused ones. */
  function CountOne(row: Option<Bucket>, now: int, window: int): Bucket {
    if row.None? then Bucket(1, now)
    else if row.value.start <= now - window then Bucket(1, now)
    else row.value.(count := row.value.count + 1)
  }

  class Counter {
    var rows: map<string, Bucket>

    constructor ()
      ensures rows == map[]
    {
      rows := map[];
    }

    method CountAttempt(key: string, window: int, now: int) returns (count: int, start: int)
      modifies this
      ensures rows == old(rows)[key := CountOne(Lookup(old(rows), key), now, window)]
      ensures count == rows[key].count && start == rows[key].start
      ensures rows == old(rows)[key := Bucket(count, start)]
      ensures (count, start) == if key in old(rows) && now < old(rows)[key].start + window
                                then (old(rows)[key].count + 1, old(rows)[key].start) else (1, now)
    {
      var cutoff := now - window;
      if key in rows {
        var ended := rows[key].start <= cutoff;
        count := if ended then 1 else rows[key].count + 1;
        start := if ended then now else rows[key].start;
      } else {
        count, start := 1, now;
      }
      rows := rows[key := Bucket(count, start)];
    }

    /** Deletes the windows that started at or before an instant, and returns how many they were. */
    method Cleanup(before: int)
      modifies this
      ensures rows == Kept(old(rows), before)
      ensures forall k :: k in rows <==> k in old(rows) && old(rows)[k].start > before
      ensures forall k | k in rows :: rows[k] == old(rows)[k]
    {
      rows := map k | k in rows && rows[k].start > before :: rows[k];
    }
  }

  function Kept(rows: map<string, Bucket>, before: int): map<string, Bucket> {
    map k | k in rows && rows[k].start > before :: rows[k]
  }

  // ---------- both forms agree

  /** The answers of the in-memory form to attempts of one key. */
  function MemoryAnswers(b: Option<Bucket>, times: seq<int>, limit: int, window: int): seq<bool>
    decreases |times|
  {
    if times == [] then []
    else
      var r := AllowOne(b, times[0], limit, window);
      [r.1] + MemoryAnswers(Some(r.0), times[1..], limit, window)
  }

  /** Whether the counts of the database form stay within the limit. */
  function CountAnswers(row: Option<Bucket>, times: seq<int>, limit: int, window: int): seq<bool>
    decreases |times|
  {
    if times == [] then []
    else
      var r := CountOne(row, times[0], window);
      [r.count <= limit] + CountAnswers(Some(r), times[1..], limit, window)
  }

  /** The in-memory count stops at the limit, and the database count goes on. */
  predicate Agree(b: Option<Bucket>, row: Option<Bucket>, limit: int) {
    b.Some? == row.Some? &&
    (b.Some? ==> b.value.start == row.value.start &&
                 b.value.count == if row.value.count <= limit then row.value.count else limit)
  }

  lemma {:induction false} SameAnswers(b: Option<Bucket>, row: Option<Bucket>, times: seq<int>, limit: int, window: int)
    requires limit >= 1 && Agree(b, row, limit)
    ensures MemoryAnswers(b, times, limit, window) == CountAnswers(row, times, limit, window)
    decreases |times|
  {
    if times != [] {
      var m, c := AllowOne(b, times[0], limit, window), CountOne(row, times[0], window);
      assert Agree(Some(m.0), Some(c), limit) && (m.1 <==> c.count <= limit);
      SameAnswers(Some(m.0), Some(c), times[1..], limit, window);
    }
  }

  /** On every history the two forms give the same answers, exactly when the limit is at least one. */
  lemma FormsAgreeIff(limit: int, window: int)
    ensures limit >= 1 <==>
            forall times :: MemoryAnswers(None, times, limit, window) == CountAnswers(None, times, limit, window)
  {
    if limit >= 1 {
      forall times ensures MemoryAnswers(None, times, limit, window) == CountAnswers(None, times, limit, window) {
        SameAnswers(None, None, times, limit, window);
      }
    } else {
      assert MemoryAnswers(None, [0], limit, window)[0] && !CountAnswers(None, [0], limit, window)[0];
    }
  }

  // ---------- the bound of a window

  /** An admitted attempt, and the start of the bucket that admitted it. */
  datatype Admitted = Admitted(at: int, start: int)

  datatype State = State(bucket: Option<Bucket>, log: seq<Admitted>, last: int)

  function Attempt(s: State, now: int, limit: int, window: int): State {
    var r := AllowOne(s.bucket, now, limit, window);
    State(Some(r.0), if r.1 then s.log + [Admitted(now, r.0.start)] else s.log, now)
  }

  function Attempts(s: State, times: seq<int>, limit: int, window: int): State
    decreases |times|
  {
    if times == [] then s else Attempts(Attempt(s, times[0], limit, window), times[1..], limit, window)
  }

  /** Times that never go back, from a given one on. */
  ghost predicate InTime(times: seq<int>, from: int)
    decreases |times|
  {
    times == [] || (from <= times[0] && InTime(times[1..], times[0]))
  }

  /** The attempts that one bucket admits at most. */
  function Cap(limit: int): int {
    Max(limit, 1)
  }

  ghost predicate Inv(s: State, limit: int, window: int) {
    && (s.bucket.None? ==> s.log == [])
    && (s.bucket.Some? ==>
          var b := s.bucket.value;
          && 1 <= b.count <= Cap(limit) && b.count <= |s.log| && b.start <= s.last
          && (forall i | 0 <= i < |s.log| - b.count :: s.log[i].start + window <= b.start)
          && (forall i | |s.log| - b.count <= i < |s.log| :: s.log[i].start == b.start))
    && (forall i | 0 <= i < |s.log| :: s.log[i].start <= s.log[i].at < s.log[i].start + window && s.log[i].at <= s.last)
    && (forall i, j | 0 <= i && i + Cap(limit) <= j < |s.log| :: s.log[i].start + window <= s.log[j].start)
  }

  lemma AttemptKeeps(s: State, now: int, limit: int, window: int)
    requires Inv(s, limit, window) && s.last <= now && window > 0
    ensures Inv(Attempt(s, now, limit, window), limit, window)
  {
  }

  lemma {:induction false} AttemptsKeep(s: State, times: seq<int>, limit: int, window: int)
    requires Inv(s, limit, window) && InTime(times, s.last) && window > 0
    ensures Inv(Attempts(s, times, limit, window), limit, window)
    decreases |times|
  {
    if times != [] {
      hide Inv, AllowOne;
      AttemptKeeps(s, times[0], limit, window);
      AttemptsKeep(Attempt(s, times[0], limit, window), times[1..], limit, window);
    }
  }

  /** Admissions that are twice the cap apart in the log come from three buckets, so they are more than a window apart. */
  lemma ThreeBuckets(s: State, limit: int, window: int, i: nat, j: nat)
    requires Inv(s, limit, window) && i + 2 * Cap(limit) <= j < |s.log|
    ensures s.log[j].at - s.log[i].at > window
  {
    var m := i + Cap(limit);
    assert s.log[i].start + window <= s.log[m].start && s.log[m].start + window <= s.log[j].start;
  }

  /** Admissions that lie within one window length number at most twice the limit, or two for a limit below one. */
  lemma WindowBound(from: int, times: seq<int>, limit: int, window: int, i: nat, j: nat)
    requires window > 0 && InTime(times, from)
    requires var log := Attempts(State(None, [], from), times, limit, window).log;
             i <= j < |log| && log[j].at - log[i].at <= window
    ensures j - i + 1 <= 2 * Cap(limit)
  {
    AttemptsKeep(State(None, [], from), times, limit, window);
    if j - i >= 2 * Cap(limit) {
      ThreeBuckets(Attempts(State(None, [], from), times, limit, window), limit, window, i, j);
    }
  }

  // ---------- cleanup

  /** The rows differ only in windows that have ended at an instant. */
  ghost predicate SameUpToEnded(a: map<string, Bucket>, b: map<string, Bucket>, window: int, now: int) {
    forall k :: Lookup(a, k) == Lookup(b, k) ||
      ((k in a ==> a[k].start <= now - window) && (k in b ==> b[k].start <= now - window))
  }

  datatype Try = Try(key: string, at: int)

  ghost predicate TriesInTime(tries: seq<Try>, from: int)
    decreases |tries|
  {
    tries == [] || (from <= tries[0].at && TriesInTime(tries[1..], tries[0].at))
  }

  /** The counts that the attempts of any keys get. */
  function Counts(rows: map<string, Bucket>, tries: seq<Try>, window: int): seq<int>
    decreases |tries|
  {
    if tries == [] then []
    else
      var r := CountOne(Lookup(rows, tries[0].key), tries[0].at, window);
      [r.count] + Counts(rows[tries[0].key := r], tries[1..], window)
  }

  lemma {:induction false} EndedRowsDoNotMatter(a: map<string, Bucket>, b: map<string, Bucket>, tries: seq<Try>,
                                                window: int, now: int)
    requires SameUpToEnded(a, b, window, now) && TriesInTime(tries, now)
    ensures Counts(a, tries, window) == Counts(b, tries, window)
    decreases |tries|
  {
    if tries != [] {
      var t := tries[0];
      var r, q := CountOne(Lookup(a, t.key), t.at, window), CountOne(Lookup(b, t.key), t.at, window);
      assert Lookup(a, t.key) == Lookup(b, t.key) || r == q == Bucket(1, t.at);
      var a', b' := a[t.key := r], b[t.key := r];
      forall k ensures Lookup(a', k) == Lookup(b', k) ||
                       ((k in a' ==> a'[k].start <= t.at - window) && (k in b' ==> b'[k].start <= t.at - window))
      {
        assert k != t.key ==> Lookup(a', k) == Lookup(a, k) && Lookup(b', k) == Lookup(b, k);
      }
      EndedRowsDoNotMatter(a', b', tries[1..], window, t.at);
    }
  }

  /** A cleanup of windows that ended before now changes no later answer. */
  lemma CleanupIsUnobservable(rows: map<string, Bucket>, before: int, tries: seq<Try>, window: int, now: int)
    requires before <= now - window && TriesInTime(tries, now)
    ensures Counts(Kept(rows, before), tries, window) == Counts(rows, tries, window)
  {
    EndedRowsDoNotMatter(Kept(rows, before), rows, tries, window, now);
  }
}
