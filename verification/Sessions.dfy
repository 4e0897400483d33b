/** Sessions with three deadlines and a throttled touch (sessions.go). Touches succeed, as long as the row is there. */
module Sessions {
  import opened Common

  datatype Session = Session(userId: string, createdAt: int, expiresAt: int, lastSeenAt: int)

  datatype Options = Options(ttl: int, idle: int, touch: int)

  // ---------- one request

  /** The session ends at the first of three deadlines. */
  predicate IsOver(s: Session, o: Options, now: int) {
    now >= s.expiresAt || now >= s.createdAt + o.ttl || now >= s.lastSeenAt + o.idle
  }

  /** The row after a request; None when the request is refused. */
  function AfterRequest(s: Option<Session>, o: Options, now: int): Option<Session> {
    if s.None? || IsOver(s.value, o, now) then None
    else if now - s.value.lastSeenAt >= o.touch then Some(s.value.(lastSeenAt := now))
    else s
  }

  predicate Touches(s: Option<Session>, o: Options, now: int) {
    s.Some? && !IsOver(s.value, o, now) && now - s.value.lastSeenAt >= o.touch
  }

  /** A request writes exactly when it is accepted and its row changes. */
  lemma WritesAreChanges(s: Option<Session>, o: Options, now: int)
    requires o.touch > 0
    ensures Touches(s, o, now) <==> AfterRequest(s, o, now).Some? && AfterRequest(s, o, now) != s
  {
  }

  class SessionStore {
    const options: Options
    /** The rows by the hash of their token. */
    var rows: map<string, Session>
    /** The users that an administrator has disabled. */
    var disabled: set<string>

    constructor (options: Options)
      ensures this.options == options && rows == map[] && disabled == {}
    {
      this.options, rows, disabled := options, map[], {};
    }

    function Row(hash: string): Option<Session>
      reads this
    {
      if hash in rows then Some(rows[hash]) else None
    }

    /** A new session of a browser replaces the one that it held before. */
    method Create(userId: string, hash: string, previous: Option<string>, now: int)
      requires hash !in rows
      modifies this`rows
      ensures rows == (old(rows) - (if previous.Some? then {previous.value} else {}))
                      [hash := Session(userId, now, now + options.ttl, now)]
    {
      if previous.Some? && previous.value in rows {
        rows := rows - {previous.value};
      }
      assert rows == old(rows) - (if previous.Some? then {previous.value} else {});
      rows := rows[hash := Session(userId, now, now + options.ttl, now)];
    }

    /** The valid session of a token hash. An ended session is removed, and a stale one touched. */
    method Lookup(hash: string, now: int) returns (r: Option<Session>)
      modifies this`rows
      ensures old(Row(hash)).Some? && old(Row(hash)).value.userId in disabled ==> r.None? && rows == old(rows)
      ensures !(old(Row(hash)).Some? && old(Row(hash)).value.userId in disabled) ==>
                r == AfterRequest(old(Row(hash)), options, now) &&
                rows == if r.Some? then old(rows)[hash := r.value] else old(rows) - {hash}
      ensures r.Some? <==>
                && hash in old(rows) && old(rows)[hash].userId !in disabled && now < old(rows)[hash].expiresAt
                && now < old(rows)[hash].createdAt + options.ttl && now < old(rows)[hash].lastSeenAt + options.idle
      ensures r.Some? ==>
                var s := old(rows)[hash];
                r.value == s.(lastSeenAt := if now - s.lastSeenAt >= options.touch then now else s.lastSeenAt)
    {
      if hash !in rows {
        assert rows == rows - {hash};
        return None;
      }
      var s := rows[hash];
      if s.userId in disabled {
        return None;
      }
      if !(now < s.expiresAt) || !(now < s.createdAt + options.ttl) || !(now < s.lastSeenAt + options.idle) {
        rows := rows - {hash};
        return None;
      }
      if now - s.lastSeenAt >= options.touch {
        s := s.(lastSeenAt := now);
        rows := rows[hash := s];
      }
      assert rows == old(rows)[hash := s];
      return Some(s);
    }
  }

  // ---------- any sequence of requests

  /** The row, the time of the last request, and the times of the touch writes. */
  datatype Run = Run(row: Option<Session>, last: int, writes: seq<int>)

  function Request(run: Run, o: Options, now: int): Run {
    Run(AfterRequest(run.row, o, now), now, if Touches(run.row, o, now) then run.writes + [now] else run.writes)
  }

  function Requests(run: Run, o: Options, times: seq<int>): Run {
    if times == [] then run else Request(Requests(run, o, times[..|times| - 1]), o, times[|times| - 1])
  }

  /** Request i of a sequence is accepted. */
  predicate Accepted(run: Run, o: Options, times: seq<int>, i: nat)
    requires i < |times|
  {
    Requests(run, o, times[..i + 1]).row.Some?
  }

  /** The time before entry i of a list, or an earlier time for the first entry. */
  function Before(from: int, times: seq<int>, i: nat): int
    requires i < |times|
  {
    if i == 0 then from else times[i - 1]
  }

  /** The times never go back, from a given one on. */
  ghost predicate InTime(from: int, times: seq<int>) {
    forall i | 0 <= i < |times| :: Before(from, times, i) <= times[i]
  }

  lemma InTimePrefix(from: int, times: seq<int>, k: nat)
    requires InTime(from, times) && k <= |times|
    ensures InTime(from, times[..k])
  {
    forall i | 0 <= i < k ensures Before(from, times[..k], i) <= times[..k][i] {
      assert Before(from, times, i) <= times[i];
    }
  }

  /** A session right after its creation; a hook may have set another absolute deadline. */
  ghost predicate IsNew(run: Run) {
    run.row.Some? && run.row.value.lastSeenAt == run.row.value.createdAt == run.last && run.writes == []
  }

  ghost predicate Inv(run: Run, o: Options, start: Session) {
    && (run.row.Some? ==>
          && run.row.value.createdAt == start.createdAt && run.row.value.expiresAt == start.expiresAt
          && run.row.value.lastSeenAt <= run.last && run.last - run.row.value.lastSeenAt < o.touch
          && run.row.value.lastSeenAt == if run.writes == [] then start.createdAt else run.writes[|run.writes| - 1])
    && (forall i | 0 <= i < |run.writes| ::
          Before(start.createdAt, run.writes, i) + o.touch <= run.writes[i] <= run.last)
    && start.createdAt <= run.last
  }

  lemma RequestKeeps(run: Run, o: Options, now: int, start: Session)
    requires Inv(run, o, start) && o.touch > 0 && run.last <= now
    ensures Inv(Request(run, o, now), o, start)
  {
    var after := Request(run, o, now);
    hide IsOver;
    forall i | 0 <= i < |after.writes|
      ensures Before(start.createdAt, after.writes, i) + o.touch <= after.writes[i] <= after.last
    {
      if i < |run.writes| {
        assert Before(start.createdAt, run.writes, i) + o.touch <= run.writes[i] <= run.last;
      }
    }
  }

  lemma {:induction false} RequestsKeep(run: Run, o: Options, times: seq<int>)
    requires IsNew(run) && o.touch > 0 && InTime(run.last, times)
    ensures Inv(Requests(run, o, times), o, run.row.value)
    ensures Requests(run, o, times).last == if times == [] then run.last else times[|times| - 1]
  {
    if times != [] {
      var init := times[..|times| - 1];
      InTimePrefix(run.last, times, |init|);
      assert Before(run.last, times, |init|) <= times[|init|];
      RequestsKeep(run, o, init);
      hide Inv;
      RequestKeeps(Requests(run, o, init), o, times[|times| - 1], run.row.value);
    }
  }

  lemma StepAt(run: Run, o: Options, times: seq<int>, i: nat)
    requires IsNew(run) && o.touch > 0 && InTime(run.last, times) && i < |times|
    ensures var before := Requests(run, o, times[..i]);
            && Inv(before, o, run.row.value) && before.last == Before(run.last, times, i) <= times[i]
            && Requests(run, o, times[..i + 1]) == Request(before, o, times[i])
  {
    assert times[..i + 1][..i] == times[..i];
    InTimePrefix(run.last, times, i);
    assert Before(run.last, times, i) <= times[i];
    RequestsKeep(run, o, times[..i]);
  }

  /** An accepted request is within the absolute lifetime, and less than the idle timeout after the one before. */
  lemma AcceptedIsWithinDeadlines(run: Run, o: Options, times: seq<int>, i: nat)
    requires IsNew(run) && o.touch > 0 && InTime(run.last, times) && i < |times| && Accepted(run, o, times, i)
    ensures times[i] < run.row.value.expiresAt && times[i] - run.row.value.createdAt < o.ttl
    ensures times[i] - Before(run.last, times, i) < o.idle
  {
    StepAt(run, o, times, i);
  }

  /** Requests whose gaps are at most the idle timeout less the touch interval keep the session to its absolute end. */
  lemma {:induction false} ActiveSessionSurvives(run: Run, o: Options, times: seq<int>, i: nat)
    requires IsNew(run) && 0 < o.touch <= o.idle && InTime(run.last, times) && i < |times|
    requires forall j | 0 <= j <= i :: times[j] - Before(run.last, times, j) <= o.idle - o.touch
    requires times[i] < run.row.value.expiresAt && times[i] < run.row.value.createdAt + o.ttl
    ensures Accepted(run, o, times, i)
  {
    StepAt(run, o, times, i);
    if i > 0 {
      assert times[i - 1] <= times[i];
      ActiveSessionSurvives(run, o, times, i - 1);
      assert times[..i - 1 + 1] == times[..i];
    } else {
      assert times[..0] == [];
    }
    assert times[i] - Before(run.last, times, i) <= o.idle - o.touch;
  }

  /** A session that was refused once is refused ever after. */
  lemma {:induction false} RefusedStaysRefused(run: Run, o: Options, times: seq<int>, i: nat, j: nat)
    requires i <= j < |times| && !Accepted(run, o, times, i)
    ensures !Accepted(run, o, times, j)
  {
    if i < j {
      RefusedStaysRefused(run, o, times, i, j - 1);
      assert times[..j + 1][..j] == times[..j] && times[..j - 1 + 1] == times[..j];
    }
  }

  /** Touch writes are at least one touch interval apart. */
  lemma {:induction false} WritesSpan(run: Run, o: Options, start: Session, i: nat)
    requires Inv(run, o, start) && i <= |run.writes| && o.touch > 0
    ensures i * o.touch <= (if i == 0 then start.createdAt else run.writes[i - 1]) - start.createdAt
  {
    if i > 0 {
      WritesSpan(run, o, start, i - 1);
      assert Before(start.createdAt, run.writes, i - 1) + o.touch <= run.writes[i - 1];
      assert i * o.touch == (i - 1) * o.touch + o.touch;
    }
  }

  /** So a session that has lived for a span has cost at most as many writes as touch intervals fit in the span. */
  lemma WritesAreFew(run: Run, o: Options, times: seq<int>)
    requires IsNew(run) && o.touch > 0 && InTime(run.last, times)
    ensures var end := Requests(run, o, times);
            |end.writes| * o.touch <= end.last - run.row.value.createdAt &&
            |end.writes| <= (end.last - run.row.value.createdAt) / o.touch
  {
    RequestsKeep(run, o, times);
    var end := Requests(run, o, times);
    WritesSpan(end, o, run.row.value, |end.writes|);
    QuotientBound(|end.writes|, o.touch, end.last - run.row.value.createdAt);
  }

  lemma QuotientBound(n: nat, d: int, total: int)
    requires d > 0 && n * d <= total
    ensures n <= total / d
  {
    assert total == d * (total / d) + total % d;
    if n > total / d {
      MultiplicationGrows(d, total / d + 1, n);
    }
  }

  lemma MultiplicationGrows(d: int, x: int, y: int)
    requires d > 0 && x <= y
    ensures d * x <= d * y && d * x == d * (x - 1) + d
  {
    assert d * (y - x) >= 0;
  }
}
