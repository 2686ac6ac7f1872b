/**
 * The SELECT statements of the store as functions of the tables. The two
 * clocks the SQL reads are parameters: date('now') is a UTC date and
 * time('now', 'localtime') a local time of day, and Python's
 * datetime.now() is a local instant.
 */
module Queries {
  import opened Wrappers
  import opened Text
  import opened Calendar
  import opened Seqs
  import opened Tables

  // ------------------------------------------------ datetime() on stored TEXT

  /**
   * datetime(date || ' ' || time) for a date "YYYY-MM-DD" and a time
   * "HH:MM" or "HH:MM:SS"; None stands for SQL NULL. The result is always
   * printed as "YYYY-MM-DD HH:MM:SS", so comparing two such texts is
   * comparing the instants.
   */
  function SqlDateTime(date: string, time: string): (r: Option<DateTime>)
    ensures r.Some? ==> Valid(r.value)
    ensures r.Some? ==> |date| == 10 && date[4] == '-' && date[7] == '-'
  {
    if |date| == 10 && AllDigits(date[..4]) && date[4] == '-' && IsDigit(date[5]) && IsDigit(date[6])
       && date[7] == '-' && IsDigit(date[8]) && IsDigit(date[9])
       && (|time| == 5 || (|time| == 8 && time[5] == ':' && IsDigit(time[6]) && IsDigit(time[7])))
       && IsDigit(time[0]) && IsDigit(time[1]) && time[2] == ':' && IsDigit(time[3]) && IsDigit(time[4])
    then
      var t := DateTime(DigitsValue(date[..4]), TwoDigits(date[5], date[6]), TwoDigits(date[8], date[9]),
                        TwoDigits(time[0], time[1]), TwoDigits(time[3], time[4]),
                        if |time| == 8 then TwoDigits(time[6], time[7]) else 0);
      if Valid(t) then Some(t) else None
    else None
  }

  /** Where a session starts, if its stored date and time read as an instant. */
  function Start(s: Session): Option<DateTime> {
    SqlDateTime(s.date, s.time)
  }

  /** ORDER BY date, time on the TEXT columns. */
  predicate ScheduleLe(date1: string, time1: string, date2: string, time2: string) {
    if date1 != date2 then TextLe(date1, date2) else TextLe(time1, time2)
  }

  lemma ScheduleLeTotal(d1: string, t1: string, d2: string, t2: string)
    ensures ScheduleLe(d1, t1, d2, t2) || ScheduleLe(d2, t2, d1, t1)
  {
    TextLeTotal(d1, d2);
    TextLeTotal(t1, t2);
  }

  lemma ScheduleLeTransitive(d1: string, t1: string, d2: string, t2: string, d3: string, t3: string)
    requires ScheduleLe(d1, t1, d2, t2) && ScheduleLe(d2, t2, d3, t3)
    ensures ScheduleLe(d1, t1, d3, t3)
  {
    if d1 == d2 && d2 == d3 {
      TextLeTransitive(t1, t2, t3);
    } else if d1 == d3 {
      if d1 != d2 {
        TextLeAntisymmetric(d1, d2);
      }
    } else {
      if d1 != d2 && d2 != d3 {
        TextLeTransitive(d1, d2, d3);
      }
    }
  }

  // ------------------------------------------------------------ get_sessions

  /** A row of get_sessions. */
  datatype ListedSession = ListedSession(id: int, game: string, date: string, time: string, maxPlayers: int,
                                         currentPlayers: nat, creatorName: string)

  /** The user ids of the participants of a session, in table order. */
  function Members(ps: seq<Pair>, sessionId: int): (r: seq<int>)
    ensures forall u :: u in r <==> Pair(sessionId, u) in ps
    ensures NoDuplicates(ps) ==> NoDuplicates(r)
  {
    if |ps| == 0 then []
    else
      var rest := Members(ps[1..], sessionId);
      assert ps == [ps[0]] + ps[1..];
      if ps[0].sessionId == sessionId then [ps[0].userId] + rest else rest
  }

  /** COUNT of the participant rows of a session. */
  function PlayerCount(ps: seq<Pair>, sessionId: int): nat {
    |Members(ps, sessionId)|
  }

  /** The WHERE clause of get_sessions with the creator JOIN: date and time are compared as separate texts. */
  predicate Listed(s: Session, users: seq<User>, today: string, clock: string) {
    FindUser(users, s.creatorId).Some? && TextLe(today, s.date) && TextLe(clock, s.time)
  }

  function Listing(s: Session, users: seq<User>, ps: seq<Pair>): ListedSession
    requires FindUser(users, s.creatorId).Some?
  {
    ListedSession(s.id, s.game, s.date, s.time, s.maxPlayers, PlayerCount(ps, s.id), FindUser(users, s.creatorId).value.name)
  }

  function ListedRows(sessions: seq<Session>, users: seq<User>, ps: seq<Pair>, today: string, clock: string): (r: seq<ListedSession>)
    ensures forall x :: x in r ==> exists s :: s in sessions && Listed(s, users, today, clock) && x == Listing(s, users, ps)
    ensures forall s :: s in sessions && Listed(s, users, today, clock) ==> Listing(s, users, ps) in r
  {
    if |sessions| == 0 then []
    else
      assert sessions == [sessions[0]] + sessions[1..];
      (if Listed(sessions[0], users, today, clock) then [Listing(sessions[0], users, ps)] else [])
      + ListedRows(sessions[1..], users, ps, today, clock)
  }

  predicate ListedBefore(a: ListedSession, b: ListedSession) {
    ScheduleLe(a.date, a.time, b.date, b.time)
  }

  lemma ListedBeforeIsTotalPreorder()
    ensures IsTotalPreorder(ListedBefore)
  {
    forall a: ListedSession, b: ListedSession ensures ListedBefore(a, b) || ListedBefore(b, a) {
      ScheduleLeTotal(a.date, a.time, b.date, b.time);
    }
    forall a: ListedSession, b: ListedSession, c: ListedSession | ListedBefore(a, b) && ListedBefore(b, c)
      ensures ListedBefore(a, c)
    {
      ScheduleLeTransitive(a.date, a.time, b.date, b.time, c.date, c.time);
    }
  }

  /** get_sessions, with utcNow the clock of date('now') and localNow that of time('now', 'localtime'). */
  function GetSessions(sessions: seq<Session>, users: seq<User>, ps: seq<Pair>, utcNow: DateTime, localNow: DateTime): (r: seq<ListedSession>)
    requires Valid(utcNow) && Valid(localNow)
    ensures multiset(r) == multiset(ListedRows(sessions, users, ps, DateText(utcNow), ClockText(localNow)))
  {
    SortBy(ListedRows(sessions, users, ps, DateText(utcNow), ClockText(localNow)), ListedBefore)
  }

  /**
   * get_sessions lists exactly the sessions whose creator is a user, whose
   * date text is not before today's and whose time text is not before the
   * current time of day, each once with its participant count, ordered by
   * (date, time).
   */
  lemma GetSessionsMeaning(sessions: seq<Session>, users: seq<User>, ps: seq<Pair>, utcNow: DateTime, localNow: DateTime)
    requires Valid(utcNow) && Valid(localNow)
    ensures var r := GetSessions(sessions, users, ps, utcNow, localNow);
      (forall x :: x in r ==> exists s :: s in sessions && Listed(s, users, DateText(utcNow), ClockText(localNow)) && x == Listing(s, users, ps))
      && (forall s :: s in sessions && Listed(s, users, DateText(utcNow), ClockText(localNow)) ==> Listing(s, users, ps) in r)
      && SortedBy(r, ListedBefore)
      && |r| <= |sessions|
      && multiset(r) == multiset(ListedRows(sessions, users, ps, DateText(utcNow), ClockText(localNow)))
      && (SessionsOrdered(sessions) ==> NoDuplicates(r))
  {
    var rows := ListedRows(sessions, users, ps, DateText(utcNow), ClockText(localNow));
    ListedBeforeIsTotalPreorder();
    SortIsSorted(rows, ListedBefore);
    var r := SortBy(rows, ListedBefore);
    assert forall x :: x in r <==> x in rows by {
      forall x ensures x in r <==> x in rows {
        assert x in r <==> x in multiset(r);
        assert x in rows <==> x in multiset(rows);
      }
    }
    ListedRowsLength(sessions, users, ps, DateText(utcNow), ClockText(localNow));
    if SessionsOrdered(sessions) {
      ListedRowsNoDuplicates(sessions, users, ps, DateText(utcNow), ClockText(localNow));
      SameMultisetNoDuplicates(rows, r);
    }
  }

  /** Every later session of a table in key order has a larger id than the first. */
  lemma LaterIdsLarger(sessions: seq<Session>, s: Session)
    requires SessionsOrdered(sessions) && |sessions| > 0 && s in sessions[1..]
    ensures sessions[0].id < s.id
  {
    var k :| 0 <= k < |sessions[1..]| && sessions[1..][k] == s;
    assert sessions[k + 1] == s;
  }

  /** A session passes the WHERE clause once, so it is listed once (the GROUP BY s.id). */
  lemma {:induction false} ListedRowsNoDuplicates(sessions: seq<Session>, users: seq<User>, ps: seq<Pair>, today: string, clock: string)
    requires SessionsOrdered(sessions)
    ensures NoDuplicates(ListedRows(sessions, users, ps, today, clock))
    decreases |sessions|
  {
    if |sessions| > 0 {
      var rest := ListedRows(sessions[1..], users, ps, today, clock);
      ListedRowsNoDuplicates(sessions[1..], users, ps, today, clock);
      forall x | x in rest ensures sessions[0].id < x.id {
        var s :| s in sessions[1..] && Listed(s, users, today, clock) && x == Listing(s, users, ps);
        LaterIdsLarger(sessions, s);
      }
    }
  }

  lemma {:induction false} ListedRowsLength(sessions: seq<Session>, users: seq<User>, ps: seq<Pair>, today: string, clock: string)
    ensures |ListedRows(sessions, users, ps, today, clock)| <= |sessions|
    decreases |sessions|
  {
    if |sessions| > 0 {
      ListedRowsLength(sessions[1..], users, ps, today, clock);
    }
  }

  /**
   * A session on a later day whose hour is before the current hour is not
   * listed: the date being later does not help, since the time texts are
   * compared on their own.
   */
  lemma LaterDayEarlierHourNotListed(users: seq<User>, s: Session, utcNow: DateTime, localNow: DateTime)
    requires Valid(utcNow) && Valid(localNow)
    requires TextLe(DateText(utcNow), s.date) && s.date != DateText(utcNow)
    requires |s.time| >= 2 && IsDigit(s.time[0]) && IsDigit(s.time[1]) && TwoDigits(s.time[0], s.time[1]) < localNow.hour
    ensures !Listed(s, users, DateText(utcNow), ClockText(localNow))
  {
    ClockDigits(localNow);
    var clock := ClockText(localNow);
    var tens, ones := DigitValue(s.time[0]), DigitValue(s.time[1]);
    assert clock[0] == DigitChar(localNow.hour / 10) && clock[1..][0] == DigitChar(localNow.hour % 10);
    assert s.time[1..][0] == s.time[1];
    if tens < localNow.hour / 10 {
      assert s.time[0] < clock[0];
    } else {
      assert tens == localNow.hour / 10 && ones < localNow.hour % 10;
      assert s.time[0] == clock[0] && s.time[1..][0] < clock[1..][0];
      assert !TextLe(clock[1..], s.time[1..]);
    }
  }

  /**
   * A session at HH:MM is not listed at any second of the minute HH:MM, on
   * any day: its time text is a proper prefix of the clock text
   * "HH:MM:SS", so it sorts before it.
   */
  lemma StartingMinuteNotListed(users: seq<User>, s: Session, utcNow: DateTime, localNow: DateTime)
    requires Valid(utcNow) && Valid(localNow)
    requires s.time == ClockText(localNow)[..5]
    ensures !Listed(s, users, DateText(utcNow), ClockText(localNow))
  {
    ClockDigits(localNow);
    var clock := ClockText(localNow);
    assert clock == s.time + clock[5..];
    PrefixSortsFirst(s.time, clock[5..]);
  }

  /** time('now', 'localtime') spelled out digit by digit. */
  lemma ClockDigits(t: DateTime)
    requires Valid(t)
    ensures ClockText(t) == [DigitChar(t.hour / 10), DigitChar(t.hour % 10), ':', DigitChar(t.minute / 10),
                             DigitChar(t.minute % 10), ':', DigitChar(t.second / 10), DigitChar(t.second % 10)]
  {
    TwoDigitPad(t.hour);
    TwoDigitPad(t.minute);
    TwoDigitPad(t.second);
  }

  // ------------------------------------------------------- get_user_sessions

  /** A row of get_user_sessions. */
  datatype UserSession = UserSession(id: int, game: string, date: string, time: string, maxPlayers: int,
                                     currentPlayers: nat, isCreator: bool)

  /** Sessions the user created or joined that start at or after the current minute. */
  predicate OwnUpcoming(s: Session, ps: seq<Pair>, user: int, now: DateTime) {
    (s.creatorId == user || Pair(s.id, user) in ps) && Start(s).Some? && Le(AtMinute(now), Start(s).value)
  }

  function UserSessionOf(s: Session, ps: seq<Pair>, user: int): UserSession {
    UserSession(s.id, s.game, s.date, s.time, s.maxPlayers, PlayerCount(ps, s.id), s.creatorId == user)
  }

  function UserSessionRows(sessions: seq<Session>, ps: seq<Pair>, user: int, now: DateTime): (r: seq<UserSession>)
    ensures forall x :: x in r ==> exists s :: s in sessions && OwnUpcoming(s, ps, user, now) && x == UserSessionOf(s, ps, user)
    ensures forall s :: s in sessions && OwnUpcoming(s, ps, user, now) ==> UserSessionOf(s, ps, user) in r
  {
    if |sessions| == 0 then []
    else
      assert sessions == [sessions[0]] + sessions[1..];
      (if OwnUpcoming(sessions[0], ps, user, now) then [UserSessionOf(sessions[0], ps, user)] else [])
      + UserSessionRows(sessions[1..], ps, user, now)
  }

  predicate UserSessionBefore(a: UserSession, b: UserSession) {
    ScheduleLe(a.date, a.time, b.date, b.time)
  }

  lemma UserSessionBeforeIsTotalPreorder()
    ensures IsTotalPreorder(UserSessionBefore)
  {
    forall a: UserSession, b: UserSession ensures UserSessionBefore(a, b) || UserSessionBefore(b, a) {
      ScheduleLeTotal(a.date, a.time, b.date, b.time);
    }
    forall a: UserSession, b: UserSession, c: UserSession | UserSessionBefore(a, b) && UserSessionBefore(b, c)
      ensures UserSessionBefore(a, c)
    {
      ScheduleLeTransitive(a.date, a.time, b.date, b.time, c.date, c.time);
    }
  }

  /** get_user_sessions(user) at the local instant now. */
  function GetUserSessions(sessions: seq<Session>, ps: seq<Pair>, user: int, now: DateTime): (r: seq<UserSession>)
    ensures multiset(r) == multiset(UserSessionRows(sessions, ps, user, now))
  {
    SortBy(UserSessionRows(sessions, ps, user, now), UserSessionBefore)
  }

  /**
   * get_user_sessions returns exactly the sessions the user created or
   * joined whose start is not before the current minute, each tagged with
   * whether the user created it and with its participant count, in
   * ascending (date, time) order.
   */
  lemma GetUserSessionsMeaning(sessions: seq<Session>, ps: seq<Pair>, user: int, now: DateTime)
    ensures var r := GetUserSessions(sessions, ps, user, now);
      (forall x :: x in r ==> exists s :: s in sessions && OwnUpcoming(s, ps, user, now) && x == UserSessionOf(s, ps, user))
      && (forall s :: s in sessions && OwnUpcoming(s, ps, user, now) ==> UserSessionOf(s, ps, user) in r)
      && (forall x :: x in r ==> x.currentPlayers == PlayerCount(ps, x.id))
      && SortedBy(r, UserSessionBefore)
      && (SessionsOrdered(sessions) ==> NoDuplicates(r))
  {
    var rows := UserSessionRows(sessions, ps, user, now);
    UserSessionBeforeIsTotalPreorder();
    SortIsSorted(rows, UserSessionBefore);
    var r := SortBy(rows, UserSessionBefore);
    assert forall x :: x in r <==> x in rows by {
      forall x ensures x in r <==> x in rows {
        assert x in r <==> x in multiset(r);
        assert x in rows <==> x in multiset(rows);
      }
    }
    if SessionsOrdered(sessions) {
      UserSessionRowsNoDuplicates(sessions, ps, user, now);
      SameMultisetNoDuplicates(rows, r);
    }
  }

  /** A session is the user's own once, so it appears once. */
  lemma {:induction false} UserSessionRowsNoDuplicates(sessions: seq<Session>, ps: seq<Pair>, user: int, now: DateTime)
    requires SessionsOrdered(sessions)
    ensures NoDuplicates(UserSessionRows(sessions, ps, user, now))
    decreases |sessions|
  {
    if |sessions| > 0 {
      var rest := UserSessionRows(sessions[1..], ps, user, now);
      UserSessionRowsNoDuplicates(sessions[1..], ps, user, now);
      forall x | x in rest ensures sessions[0].id < x.id {
        var s :| s in sessions[1..] && OwnUpcoming(s, ps, user, now) && x == UserSessionOf(s, ps, user);
        LaterIdsLarger(sessions, s);
      }
    }
  }

  // --------------------------------------------------- get_upcoming_sessions

  /** A row of get_upcoming_sessions: one per (session, participant). */
  datatype UpcomingRow = UpcomingRow(id: int, game: string, date: string, time: string, userId: int)

  /**
   * BETWEEN "now" AND "now + hours", both printed "%Y-%m-%d %H:%M", against
   * the datetime() text "YYYY-MM-DD HH:MM:SS" of the start: a start counts
   * from the current minute on, and stops counting at the minute the
   * window ends, because that minute's text with its ":SS" sorts after the
   * bound.
   */
  predicate InWindow(start: DateTime, now: DateTime, hours: int)
    requires Valid(start) && Valid(now)
  {
    Seconds(AtMinute(now)) <= Seconds(start) < Seconds(AtMinute(now)) + hours * 3600
  }

  /** sc.status IS NULL OR sc.status = 'pending' under the LEFT JOIN. */
  predicate AwaitsAnswer(c: map<Pair, string>, p: Pair) {
    p !in c || c[p] == "pending"
  }

  predicate Remindable(s: Session, p: Pair, c: map<Pair, string>, now: DateTime, hours: int)
    requires Valid(now)
  {
    p.sessionId == s.id && Start(s).Some? && InWindow(Start(s).value, now, hours) && AwaitsAnswer(c, p)
  }

  function UpcomingOf(s: Session, userId: int): UpcomingRow {
    UpcomingRow(s.id, s.game, s.date, s.time, userId)
  }

  /** The participants of one session that join into the result. */
  function UpcomingFor(s: Session, ps: seq<Pair>, c: map<Pair, string>, now: DateTime, hours: int): (r: seq<UpcomingRow>)
    requires Valid(now)
    ensures forall x :: x in r <==> Pair(s.id, x.userId) in ps && Remindable(s, Pair(s.id, x.userId), c, now, hours) && x == UpcomingOf(s, x.userId)
  {
    if |ps| == 0 then []
    else
      assert ps == [ps[0]] + ps[1..];
      (if Remindable(s, ps[0], c, now, hours) then [UpcomingOf(s, ps[0].userId)] else [])
      + UpcomingFor(s, ps[1..], c, now, hours)
  }

  /** A pair is in participants once, so a session's due participant appears once. */
  lemma {:induction false} UpcomingForNoDuplicates(s: Session, ps: seq<Pair>, c: map<Pair, string>, now: DateTime, hours: int)
    requires Valid(now) && NoDuplicates(ps)
    ensures NoDuplicates(UpcomingFor(s, ps, c, now, hours))
    decreases |ps|
  {
    if |ps| > 0 {
      var rest := UpcomingFor(s, ps[1..], c, now, hours);
      UpcomingForNoDuplicates(s, ps[1..], c, now, hours);
      assert ps[0] !in ps[1..];
      if Remindable(s, ps[0], c, now, hours) {
        assert ps[0] == Pair(s.id, ps[0].userId);
        assert UpcomingOf(s, ps[0].userId) !in rest;
      }
    }
  }

  /** get_upcoming_sessions(hours) at the local instant now, sessions in table order and for each its participants. */
  function GetUpcomingSessions(sessions: seq<Session>, ps: seq<Pair>, c: map<Pair, string>, now: DateTime, hours: int): (r: seq<UpcomingRow>)
    requires Valid(now)
    ensures forall x :: x in r ==> Pair(x.id, x.userId) in ps && AwaitsAnswer(c, Pair(x.id, x.userId))
  {
    if |sessions| == 0 then []
    else UpcomingFor(sessions[0], ps, c, now, hours) + GetUpcomingSessions(sessions[1..], ps, c, now, hours)
  }

  lemma {:induction false} UpcomingMember(sessions: seq<Session>, ps: seq<Pair>, c: map<Pair, string>, now: DateTime, hours: int, x: UpcomingRow)
    requires Valid(now)
    ensures x in GetUpcomingSessions(sessions, ps, c, now, hours) <==> exists s :: s in sessions && x in UpcomingFor(s, ps, c, now, hours)
    decreases |sessions|
  {
    if |sessions| > 0 {
      UpcomingMember(sessions[1..], ps, c, now, hours, x);
      if x in UpcomingFor(sessions[0], ps, c, now, hours) {
        assert sessions[0] in sessions;
      }
      if exists s :: s in sessions && x in UpcomingFor(s, ps, c, now, hours) {
        var s :| s in sessions && x in UpcomingFor(s, ps, c, now, hours);
        if s != sessions[0] {
          assert s in sessions[1..];
        }
      }
    }
  }

  /**
   * get_upcoming_sessions returns exactly the (session, participant) pairs
   * whose session starts in the half-open window from the current minute
   * to the same minute hours later and whose confirmation is missing or
   * 'pending'; so a participant who confirmed or declined is never
   * reminded.
   */
  lemma GetUpcomingSessionsMeaning(sessions: seq<Session>, ps: seq<Pair>, c: map<Pair, string>, now: DateTime, hours: int)
    requires Valid(now) && SessionsOrdered(sessions)
    ensures forall x :: x in GetUpcomingSessions(sessions, ps, c, now, hours) <==>
      Pair(x.id, x.userId) in ps && FindSession(sessions, x.id).Some?
      && var s := FindSession(sessions, x.id).value;
         x == UpcomingOf(s, x.userId) && Start(s).Some? && InWindow(Start(s).value, now, hours)
         && AwaitsAnswer(c, Pair(x.id, x.userId))
    ensures forall x :: x in GetUpcomingSessions(sessions, ps, c, now, hours) ==>
      var p := Pair(x.id, x.userId); p !in c || (c[p] != "confirmed" && c[p] != "declined")
    ensures NoDuplicates(ps) ==> NoDuplicates(GetUpcomingSessions(sessions, ps, c, now, hours))
  {
    if NoDuplicates(ps) {
      UpcomingNoDuplicates(sessions, ps, c, now, hours);
    }
    forall x ensures x in GetUpcomingSessions(sessions, ps, c, now, hours) <==>
      Pair(x.id, x.userId) in ps && FindSession(sessions, x.id).Some?
      && var s := FindSession(sessions, x.id).value;
         x == UpcomingOf(s, x.userId) && Start(s).Some? && InWindow(Start(s).value, now, hours)
         && AwaitsAnswer(c, Pair(x.id, x.userId))
    {
      UpcomingMember(sessions, ps, c, now, hours, x);
      if x in GetUpcomingSessions(sessions, ps, c, now, hours) {
        var s :| s in sessions && x in UpcomingFor(s, ps, c, now, hours);
        UniqueIds(sessions, s);
      } else if Pair(x.id, x.userId) in ps && FindSession(sessions, x.id).Some? {
        var s := FindSession(sessions, x.id).value;
        assert x !in UpcomingFor(s, ps, c, now, hours);
      }
    }
  }

  /** Sessions have distinct ids and each session's participants are distinct, so no (session, participant) row repeats. */
  lemma {:induction false} UpcomingNoDuplicates(sessions: seq<Session>, ps: seq<Pair>, c: map<Pair, string>, now: DateTime, hours: int)
    requires Valid(now) && SessionsOrdered(sessions) && NoDuplicates(ps)
    ensures NoDuplicates(GetUpcomingSessions(sessions, ps, c, now, hours))
    decreases |sessions|
  {
    if |sessions| > 0 {
      var head := UpcomingFor(sessions[0], ps, c, now, hours);
      var rest := GetUpcomingSessions(sessions[1..], ps, c, now, hours);
      UpcomingForNoDuplicates(sessions[0], ps, c, now, hours);
      UpcomingNoDuplicates(sessions[1..], ps, c, now, hours);
      forall x | x in rest ensures sessions[0].id < x.id {
        UpcomingMember(sessions[1..], ps, c, now, hours, x);
        var s :| s in sessions[1..] && x in UpcomingFor(s, ps, c, now, hours);
        LaterIdsLarger(sessions, s);
      }
      var r := head + rest;
      forall i, j | 0 <= i < j < |r| ensures r[i] != r[j] {
        if j < |head| {
        } else if i >= |head| {
          assert r[i] == rest[i - |head|] && r[j] == rest[j - |head|];
        } else {
          assert r[i] in head && r[j] in rest;
        }
      }
    }
  }

  /** In a table in key order, the row a key finds is the only row with that key. */
  lemma UniqueIds(sessions: seq<Session>, s: Session)
    requires SessionsOrdered(sessions) && s in sessions
    ensures FindSession(sessions, s.id) == Some(s)
  {
    var k :| 0 <= k < |sessions| && sessions[k] == s;
    FindSessionAt(sessions, k);
  }

  lemma {:induction false} FindSessionAt(sessions: seq<Session>, k: nat)
    requires SessionsOrdered(sessions) && k < |sessions|
    ensures FindSession(sessions, sessions[k].id) == Some(sessions[k])
    decreases k
  {
    if k > 0 {
      FindSessionAt(sessions[1..], k - 1);
      assert sessions[0].id < sessions[k].id;
    }
  }

  // ----------------------------------------------- get_user_session_history

  /** A row of get_user_session_history. */
  datatype HistoryRow = HistoryRow(sessionId: int, eventType: string, timestamp: DateTime, userName: string, game: string)

  predicate HasLeft(events: seq<Event>, user: int, sessionId: int) {
    exists e :: e in events && e.userId == user && e.sessionId == sessionId && e.eventType == "left"
  }

  /** current_sessions: joined by the user, dated today or later, and never left by the user. */
  predicate Current(sessionId: int, user: int, sessions: seq<Session>, ps: seq<Pair>, events: seq<Event>, today: string) {
    Pair(sessionId, user) in ps
    && FindSession(sessions, sessionId).Some? && TextLe(today, FindSession(sessions, sessionId).value.date)
    && !HasLeft(events, user, sessionId)
  }

  /** An event of a current session whose author is a user row (the two inner JOINs). */
  predicate InHistory(e: Event, user: int, sessions: seq<Session>, users: seq<User>, ps: seq<Pair>, events: seq<Event>, today: string) {
    Current(e.sessionId, user, sessions, ps, events, today) && FindUser(users, e.userId).Some?
  }

  function HistoryOf(e: Event, sessions: seq<Session>, users: seq<User>): HistoryRow
    requires FindSession(sessions, e.sessionId).Some? && FindUser(users, e.userId).Some?
  {
    HistoryRow(e.sessionId, e.eventType, e.timestamp, FindUser(users, e.userId).value.name, FindSession(sessions, e.sessionId).value.game)
  }

  function HistoryRows(log: seq<Event>, user: int, sessions: seq<Session>, users: seq<User>, ps: seq<Pair>, events: seq<Event>, today: string): (r: seq<HistoryRow>)
    ensures forall x :: x in r ==> exists e :: e in log && InHistory(e, user, sessions, users, ps, events, today) && x == HistoryOf(e, sessions, users)
    ensures forall e :: e in log && InHistory(e, user, sessions, users, ps, events, today) ==> HistoryOf(e, sessions, users) in r
  {
    if |log| == 0 then []
    else
      assert log == [log[0]] + log[1..];
      (if InHistory(log[0], user, sessions, users, ps, events, today) then [HistoryOf(log[0], sessions, users)] else [])
      + HistoryRows(log[1..], user, sessions, users, ps, events, today)
  }

  /** ORDER BY timestamp DESC: CURRENT_TIMESTAMP text sorts as the instants do. */
  predicate NewerFirst(a: HistoryRow, b: HistoryRow) {
    Le(b.timestamp, a.timestamp)
  }

  lemma NewerFirstIsTotalPreorder()
    ensures IsTotalPreorder(NewerFirst)
  {
    forall a: HistoryRow, b: HistoryRow ensures NewerFirst(a, b) || NewerFirst(b, a) {
      LeTotal(a.timestamp, b.timestamp);
    }
    forall a: HistoryRow, b: HistoryRow, c: HistoryRow | NewerFirst(a, b) && NewerFirst(b, c) ensures NewerFirst(a, c) {
      LeTransitive(c.timestamp, b.timestamp, a.timestamp);
    }
  }

  const HistoryLimit := 50

  /** get_user_session_history(user), with today the UTC date of date('now'). */
  function GetUserSessionHistory(sessions: seq<Session>, users: seq<User>, ps: seq<Pair>, events: seq<Event>, user: int, today: DateTime): (r: seq<HistoryRow>)
    requires Valid(today)
    ensures |r| <= HistoryLimit
    ensures multiset(r) <= multiset(HistoryRows(events, user, sessions, users, ps, events, DateText(today)))
  {
    Take(SortBy(HistoryRows(events, user, sessions, users, ps, events, DateText(today)), NewerFirst), HistoryLimit)
  }

  /**
   * The history holds at most 50 rows, newest first, each an event of a
   * session the user is in, dated today or later and not left by the user;
   * it holds all such events when there are at most 50, and any such event
   * it drops is no newer than every row it keeps.
   */
  lemma GetUserSessionHistoryMeaning(sessions: seq<Session>, users: seq<User>, ps: seq<Pair>, events: seq<Event>, user: int, today: DateTime)
    requires Valid(today)
    ensures var r := GetUserSessionHistory(sessions, users, ps, events, user, today);
      var all := HistoryRows(events, user, sessions, users, ps, events, DateText(today));
      |r| <= HistoryLimit
      && |r| == (if |all| < HistoryLimit then |all| else HistoryLimit)
      && (forall x :: x in r ==> exists e :: e in events && InHistory(e, user, sessions, users, ps, events, DateText(today)) && x == HistoryOf(e, sessions, users))
      && SortedBy(r, NewerFirst)
      && (forall y, i :: y in all && y !in r && 0 <= i < |r| ==> Le(y.timestamp, r[i].timestamp))
      && multiset(r) <= multiset(all)
      && (|all| <= HistoryLimit ==> multiset(r) == multiset(all))
  {
    var all := HistoryRows(events, user, sessions, users, ps, events, DateText(today));
    NewestKept(all);
    NewestDropsOlder(all);
  }

  /** The first 50 rows newest first: sorted, and each one of the rows. */
  lemma NewestKept(all: seq<HistoryRow>)
    ensures var r := Take(SortBy(all, NewerFirst), HistoryLimit);
      (forall x :: x in r ==> x in all) && SortedBy(r, NewerFirst)
  {
    var sorted := SortBy(all, NewerFirst);
    NewerFirstIsTotalPreorder();
    SortIsSorted(all, NewerFirst);
    var r := Take(sorted, HistoryLimit);
    forall x | x in r ensures x in all {
      assert x in multiset(sorted);
    }
  }

  /** A row cut off by the limit is no newer than any row kept. */
  lemma NewestDropsOlder(all: seq<HistoryRow>)
    ensures var r := Take(SortBy(all, NewerFirst), HistoryLimit);
      forall y, i :: y in all && y !in r && 0 <= i < |r| ==> Le(y.timestamp, r[i].timestamp)
  {
    var sorted := SortBy(all, NewerFirst);
    NewerFirstIsTotalPreorder();
    SortIsSorted(all, NewerFirst);
    var r := Take(sorted, HistoryLimit);
    forall y, i | y in all && y !in r && 0 <= i < |r| ensures Le(y.timestamp, r[i].timestamp) {
      assert y in multiset(sorted);
      var j :| 0 <= j < |sorted| && sorted[j] == y;
      assert j >= |r|;
    }
  }

  // ------------------------------------------------------- single-row reads

  /** get_user_info: the profile and two counts, or None for an unknown user. */
  datatype UserInfo = UserInfo(name: string, age: int, createdSessions: nat, attendedSessions: nat)

  /** COUNT(*) FROM sessions WHERE creator_id = ?: none exactly when the user created no session. */
  function CreatedCount(sessions: seq<Session>, user: int): (n: nat)
    ensures n <= |sessions|
    ensures n == 0 <==> forall s :: s in sessions ==> s.creatorId != user
  {
    if |sessions| == 0 then 0
    else
      assert sessions == [sessions[0]] + sessions[1..];
      (if sessions[0].creatorId == user then 1 else 0) + CreatedCount(sessions[1..], user)
  }

  /** The sessions a user created. */
  ghost function CreatedBy(sessions: seq<Session>, user: int): set<Session> {
    set s | s in sessions && s.creatorId == user
  }

  /** In a table in key order the count is the number of distinct sessions the user created. */
  lemma {:induction false} CreatedCountIsSize(sessions: seq<Session>, user: int)
    ensures SessionsOrdered(sessions) ==> CreatedCount(sessions, user) == |CreatedBy(sessions, user)|
    decreases |sessions|
  {
    if |sessions| > 0 && SessionsOrdered(sessions) {
      var head := sessions[0];
      CreatedCountIsSize(sessions[1..], user);
      assert head !in sessions[1..] by {
        if head in sessions[1..] {
          LaterIdsLarger(sessions, head);
          assert false;
        }
      }
      assert sessions == [head] + sessions[1..];
      if head.creatorId == user {
        assert CreatedBy(sessions, user) == CreatedBy(sessions[1..], user) + {head};
      } else {
        assert CreatedBy(sessions, user) == CreatedBy(sessions[1..], user);
      }
    }
  }

  /** A created session adds one to its creator's count and nothing to anyone else's. */
  lemma {:induction false} CreatedAfterCreate(sessions: seq<Session>, game: string, date: string, time: string, maxPlayers: int, creatorId: int, user: int)
    ensures CreatedCount(CreateSession(sessions, game, date, time, maxPlayers, creatorId), user)
      == CreatedCount(sessions, user) + (if creatorId == user then 1 else 0)
  {
    var s := Session(NextSessionId(sessions), game, date, time, maxPlayers, creatorId);
    CreatedCountAppend(sessions, s, user);
  }

  /** Deleting a session takes one off its creator's count and nothing off anyone else's. */
  lemma {:induction false} CreatedAfterDrop(sessions: seq<Session>, id: int, user: int)
    requires SessionsOrdered(sessions)
    ensures var gone := FindSession(sessions, id);
      CreatedCount(DropSession(sessions, id), user)
      == CreatedCount(sessions, user) - (if gone.Some? && gone.value.creatorId == user then 1 else 0)
    decreases |sessions|
  {
    if |sessions| > 0 {
      var head := sessions[0];
      CreatedAfterDrop(sessions[1..], id, user);
      if head.id == id {
        forall s | s in sessions[1..] ensures s.id != id {
          LaterIdsLarger(sessions, s);
        }
      }
    }
  }

  lemma {:induction false} CreatedCountAppend(sessions: seq<Session>, s: Session, user: int)
    ensures CreatedCount(sessions + [s], user) == CreatedCount(sessions, user) + (if s.creatorId == user then 1 else 0)
    decreases |sessions|
  {
    if |sessions| > 0 {
      CreatedCountAppend(sessions[1..], s, user);
      assert (sessions + [s])[1..] == sessions[1..] + [s];
    }
  }

  /** The sessions of a user in participants, in table order. */
  function Attended(ps: seq<Pair>, user: int): (r: seq<int>)
    ensures forall sid :: sid in r <==> Pair(sid, user) in ps
    ensures NoDuplicates(ps) ==> NoDuplicates(r)
  {
    if |ps| == 0 then []
    else
      var rest := Attended(ps[1..], user);
      assert ps == [ps[0]] + ps[1..];
      if ps[0].userId == user then [ps[0].sessionId] + rest else rest
  }

  function GetUserInfo(users: seq<User>, sessions: seq<Session>, ps: seq<Pair>, user: int): (r: Option<UserInfo>)
    ensures r.None? <==> FindUser(users, user).None?
    ensures r.Some? ==> r.value.name == FindUser(users, user).value.name && r.value.age == FindUser(users, user).value.age
    ensures r.Some? ==> r.value.attendedSessions == |Attended(ps, user)|
    ensures r.Some? ==> r.value.createdSessions <= |sessions|
    ensures r.Some? ==> (r.value.createdSessions == 0 <==> forall s :: s in sessions ==> s.creatorId != user)
    ensures r.Some? && SessionsOrdered(sessions) ==> r.value.createdSessions == |CreatedBy(sessions, user)|
  {
    CreatedCountIsSize(sessions, user);
    match FindUser(users, user)
    case None => None
    case Some(u) => Some(UserInfo(u.name, u.age, CreatedCount(sessions, user), |Attended(ps, user)|))
  }

  /** Joining a session the user was not in raises the attended count by one; joining again leaves it. */
  lemma {:induction false} AttendedAfterJoin(ps: seq<Pair>, p: Pair)
    ensures |Attended(Join(ps, p), p.userId)| == |Attended(ps, p.userId)| + (if p in ps then 0 else 1)
    decreases |ps|
  {
    if p !in ps {
      AttendedAppend(ps, p);
    }
  }

  lemma {:induction false} AttendedAppend(ps: seq<Pair>, p: Pair)
    ensures Attended(ps + [p], p.userId) == Attended(ps, p.userId) + [p.sessionId]
    decreases |ps|
  {
    if |ps| > 0 {
      AttendedAppend(ps[1..], p);
      assert (ps + [p])[1..] == ps[1..] + [p];
    }
  }

  /** is_user_blocked: the stored flag, false for an unknown user. */
  function IsUserBlocked(users: seq<User>, user: int): (b: bool)
    ensures b <==> FindUser(users, user).Some? && FindUser(users, user).value.isBlocked
  {
    match FindUser(users, user)
    case None => false
    case Some(u) => u.isBlocked
  }

  /** Blocking a registered user makes is_user_blocked true; unblocking or re-registering makes it false. */
  lemma BlockedFlagRules(users: seq<User>, user: int, reason: string, name: string, age: int, username: Option<string>)
    requires UsersOrdered(users)
    ensures IsUserBlocked(BlockUser(users, user, reason), user) == FindUser(users, user).Some?
    ensures !IsUserBlocked(UnblockUser(users, user), user)
    ensures !IsUserBlocked(SaveUser(users, user, name, age, username), user)
  {
    BlockUserFind(users, user, reason, user);
    UnblockUserFind(users, user, user);
    UpsertFind(users, User(user, name, age, username, false, None), user);
  }

  /** get_session_info: the session with its creator's name; None when either row is missing. */
  datatype SessionInfo = SessionInfo(id: int, game: string, date: string, time: string, maxPlayers: int, creatorId: int, creatorName: string)

  function GetSessionInfo(sessions: seq<Session>, users: seq<User>, sessionId: int): (r: Option<SessionInfo>)
    ensures r.Some? <==> FindSession(sessions, sessionId).Some? && FindUser(users, FindSession(sessions, sessionId).value.creatorId).Some?
    ensures r.Some? ==> var s := FindSession(sessions, sessionId).value;
      r.value == SessionInfo(s.id, s.game, s.date, s.time, s.maxPlayers, s.creatorId, FindUser(users, s.creatorId).value.name)
  {
    match FindSession(sessions, sessionId)
    case None => None
    case Some(s) =>
      match FindUser(users, s.creatorId)
      case None => None
      case Some(u) => Some(SessionInfo(s.id, s.game, s.date, s.time, s.maxPlayers, s.creatorId, u.name))
  }

  /** A row of get_session_participants. */
  datatype Participant = Participant(id: int, name: string, username: Option<string>)

  function ParticipantOf(u: User): Participant {
    Participant(u.id, u.name, u.username)
  }

  /** No two participant rows carry the same user id. */
  predicate DistinctIds(r: seq<Participant>) {
    forall i, j :: 0 <= i < j < |r| ==> r[i].id != r[j].id
  }

  /** get_session_participants: the registered participants of a session, in table order. */
  function GetSessionParticipants(ps: seq<Pair>, users: seq<User>, sessionId: int): (r: seq<Participant>)
    ensures forall x :: x in r <==> Pair(sessionId, x.id) in ps && FindUser(users, x.id).Some? && x == ParticipantOf(FindUser(users, x.id).value)
  {
    if |ps| == 0 then []
    else
      assert ps == [ps[0]] + ps[1..];
      (if ps[0].sessionId == sessionId && FindUser(users, ps[0].userId).Some? then [ParticipantOf(FindUser(users, ps[0].userId).value)] else [])
      + GetSessionParticipants(ps[1..], users, sessionId)
  }

  /** A pair is in participants once, so each user is listed once. */
  lemma {:induction false} ParticipantsDistinct(ps: seq<Pair>, users: seq<User>, sessionId: int)
    requires NoDuplicates(ps)
    ensures DistinctIds(GetSessionParticipants(ps, users, sessionId))
    ensures NoDuplicates(GetSessionParticipants(ps, users, sessionId))
    decreases |ps|
  {
    if |ps| > 0 {
      var rest := GetSessionParticipants(ps[1..], users, sessionId);
      ParticipantsDistinct(ps[1..], users, sessionId);
      assert ps[0] !in ps[1..];
      var r := GetSessionParticipants(ps, users, sessionId);
      if ps[0].sessionId == sessionId && FindUser(users, ps[0].userId).Some? {
        assert r == [r[0]] + rest && r[0].id == ps[0].userId;
        forall j | 0 < j < |r| ensures r[0].id != r[j].id {
          assert r[j] == rest[j - 1];
        }
      } else {
        assert r == rest;
      }
    }
  }

  /** Some participant row carries the id. */
  predicate HasParticipant(r: seq<Participant>, user: int) {
    exists x :: x in r && x.id == user
  }

  /** A registered user appears among the participants exactly when they are in the session. */
  lemma ParticipantListed(ps: seq<Pair>, users: seq<User>, sessionId: int, user: int)
    requires FindUser(users, user).Some?
    ensures HasParticipant(GetSessionParticipants(ps, users, sessionId), user) <==> Pair(sessionId, user) in ps
  {
    var r := GetSessionParticipants(ps, users, sessionId);
    if Pair(sessionId, user) in ps {
      assert ParticipantOf(FindUser(users, user).value) in r;
    }
  }

  // ---------------------------------------------------------- admin reads

  /** A row of get_all_users. */
  datatype UserLine = UserLine(id: int, name: string, age: int)

  /** A row of get_blocked_users. */
  datatype BlockedLine = BlockedLine(id: int, name: string, reason: Option<string>)

  /** get_all_users: every user, in key order. */
  function GetAllUsers(users: seq<User>): (r: seq<UserLine>)
    ensures |r| == |users|
    ensures forall i :: 0 <= i < |r| ==> r[i] == UserLine(users[i].id, users[i].name, users[i].age)
  {
    seq(|users|, i requires 0 <= i < |users| => UserLine(users[i].id, users[i].name, users[i].age))
  }

  /** get_blocked_users: the users whose is_blocked is 1, in key order. */
  function GetBlockedUsers(users: seq<User>): (r: seq<BlockedLine>)
    ensures forall x :: x in r <==> exists u :: u in users && u.isBlocked && x == BlockedLine(u.id, u.name, u.blockReason)
  {
    if |users| == 0 then []
    else
      assert users == [users[0]] + users[1..];
      (if users[0].isBlocked then [BlockedLine(users[0].id, users[0].name, users[0].blockReason)] else [])
      + GetBlockedUsers(users[1..])
  }

  /** The four counts of get_user_statistics. */
  datatype Statistics = Statistics(totalUsers: nat, activeUsers: nat, blockedUsers: nat, totalSessions: nat)

  function CountBlocked(users: seq<User>, blocked: bool): (n: nat)
    ensures n <= |users|
  {
    if |users| == 0 then 0 else (if users[0].isBlocked == blocked then 1 else 0) + CountBlocked(users[1..], blocked)
  }

  /** get_user_statistics: the totals are the sizes of the two tables, and neither user count exceeds the total. */
  function GetUserStatistics(users: seq<User>, sessions: seq<Session>): (r: Statistics)
    ensures r.totalUsers == |users| && r.totalSessions == |sessions|
    ensures r.activeUsers <= r.totalUsers && r.blockedUsers <= r.totalUsers
  {
    Statistics(|users|, CountBlocked(users, false), CountBlocked(users, true), |sessions|)
  }

  /** Every user is either active or blocked, so the two counts add up to the total. */
  lemma {:induction false} StatisticsAddUp(users: seq<User>, sessions: seq<Session>)
    ensures var st := GetUserStatistics(users, sessions);
      st.activeUsers + st.blockedUsers == st.totalUsers
    ensures GetUserStatistics(users, sessions).blockedUsers == |GetBlockedUsers(users)|
    decreases |users|
  {
    if |users| > 0 {
      StatisticsAddUp(users[1..], sessions);
    }
  }
}
