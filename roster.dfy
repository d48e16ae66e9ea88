/** The roster views (src/App.jsx, Dashboard and MemberList): today's
    birthdays; the birthdays of the next 30 days, soonest first; the search
    by name or unit; and removal by id. */
module Roster {
  import opened Text
  import opened Dates
  import opened Members

  // ---------------------------------------------------------------------------
  // Filtering and sorting lists

  /** Array.prototype.filter: the elements that satisfy `p`, in order. */
  function Filter<T(!new)>(s: seq<T>, p: T -> bool): (r: seq<T>)
    ensures |r| <= |s|
    ensures forall i :: 0 <= i < |r| ==> p(r[i])
  {
    if s == [] then [] else (if p(s[0]) then [s[0]] else []) + Filter(s[1..], p)
  }

  /** The filter keeps every element that passes, as many times as it occurs,
      and nothing else. */
  lemma {:induction false} FilterCounts<T(!new)>(s: seq<T>, p: T -> bool)
    ensures forall x :: multiset(Filter(s, p))[x] == if p(x) then multiset(s)[x] else 0
  {
    if s != [] {
      FilterCounts(s[1..], p);
      assert s == [s[0]] + s[1..];
    }
  }

  /** `r` is `s` with some elements left out and the rest in their order. */
  predicate InOrderWithin<T(==)>(r: seq<T>, s: seq<T>)
    decreases |s|
  {
    if r == [] then true
    else if s == [] then false
    else (r[0] == s[0] && InOrderWithin(r[1..], s[1..])) || InOrderWithin(r, s[1..])
  }

  /** The filter keeps the order of its input. */
  lemma {:induction false} FilterInOrder<T(!new)>(s: seq<T>, p: T -> bool)
    ensures InOrderWithin(Filter(s, p), s)
  {
    if s != [] {
      var r := Filter(s, p);
      FilterInOrder(s[1..], p);
      if p(s[0]) {
        assert r[0] == s[0] && r[1..] == Filter(s[1..], p);
      } else {
        assert r == Filter(s[1..], p);
      }
    }
  }

  lemma FilterSingle<T(!new)>(x: T, p: T -> bool)
    ensures Filter([x], p) == if p(x) then [x] else []
  {
    assert [x][1..] == [];
  }

  /** Filtering a concatenation filters each part: the order is kept. */
  lemma {:induction false} FilterAppend<T(!new)>(a: seq<T>, b: seq<T>, p: T -> bool)
    ensures Filter(a + b, p) == Filter(a, p) + Filter(b, p)
  {
    if a != [] {
      var h := if p(a[0]) then [a[0]] else [];
      assert (a + b)[0] == a[0];
      assert (a + b)[1..] == a[1..] + b;
      FilterAppend(a[1..], b, p);
      assert Filter(a + b, p) == h + (Filter(a[1..], p) + Filter(b, p));
      assert h + (Filter(a[1..], p) + Filter(b, p)) == (h + Filter(a[1..], p)) + Filter(b, p);
    } else {
      assert a + b == b;
    }
  }

  /** Filtering by the same test twice changes nothing more. */
  lemma {:induction false} FilterIdempotent<T(!new)>(s: seq<T>, p: T -> bool)
    ensures Filter(Filter(s, p), p) == Filter(s, p)
  {
    if s != [] {
      var h := if p(s[0]) then [s[0]] else [];
      FilterIdempotent(s[1..], p);
      FilterAppend(h, Filter(s[1..], p), p);
      if p(s[0]) { FilterSingle(s[0], p); }
    }
  }

  /** Two filters commute. */
  lemma {:induction false} FilterCommute<T(!new)>(s: seq<T>, p: T -> bool, q: T -> bool)
    ensures Filter(Filter(s, p), q) == Filter(Filter(s, q), p)
  {
    if s != [] {
      var x := s[0];
      var hp := if p(x) then [x] else [];
      var hq := if q(x) then [x] else [];
      FilterCommute(s[1..], p, q);
      FilterAppend(hp, Filter(s[1..], p), q);
      FilterAppend(hq, Filter(s[1..], q), p);
      FilterSingle(x, p);
      FilterSingle(x, q);
    }
  }

  /** Filters whose tests agree on every element agree. */
  lemma {:induction false} FilterSameTest<T(!new)>(s: seq<T>, p: T -> bool, q: T -> bool)
    requires forall i :: 0 <= i < |s| ==> p(s[i]) == q(s[i])
    ensures Filter(s, p) == Filter(s, q)
  {
    if s != [] {
      FilterSameTest(s[1..], p, q);
    }
  }

  /** A filter whose test every element passes keeps the list as it is. */
  lemma {:induction false} FilterAll<T(!new)>(s: seq<T>, p: T -> bool)
    requires forall i :: 0 <= i < |s| ==> p(s[i])
    ensures Filter(s, p) == s
  {
    if s != [] {
      FilterAll(s[1..], p);
    }
  }

  predicate SortedBy<T>(s: seq<T>, key: T -> int) {
    forall i, j :: 0 <= i < j < |s| ==> key(s[i]) <= key(s[j])
  }

  /** `x` placed before the first element of `t` whose key is not smaller. */
  function Insert<T>(x: T, t: seq<T>, key: T -> int): (r: seq<T>)
    requires SortedBy(t, key)
    ensures SortedBy(r, key)
    ensures multiset(r) == multiset{x} + multiset(t)
  {
    if t == [] || key(x) <= key(t[0]) then
      InsertFront(x, t, key);
      [x] + t
    else
      var rest := Insert(x, t[1..], key);
      InsertBehind(x, t, rest, key);
      [t[0]] + rest
  }

  lemma InsertFront<T>(x: T, t: seq<T>, key: T -> int)
    requires SortedBy(t, key)
    requires t == [] || key(x) <= key(t[0])
    ensures SortedBy([x] + t, key)
  {
    var r := [x] + t;
    forall i, j | 0 <= i < j < |r| ensures key(r[i]) <= key(r[j]) {
      assert r[j] == t[j - 1];
      if i > 0 { assert r[i] == t[i - 1]; }
    }
  }

  lemma InsertBehind<T>(x: T, t: seq<T>, rest: seq<T>, key: T -> int)
    requires SortedBy(t, key) && t != [] && key(t[0]) < key(x)
    requires SortedBy(rest, key) && multiset(rest) == multiset{x} + multiset(t[1..])
    ensures SortedBy([t[0]] + rest, key)
    ensures multiset([t[0]] + rest) == multiset{x} + multiset(t)
  {
    assert t == [t[0]] + t[1..];
    forall i | 0 <= i < |rest| ensures key(t[0]) <= key(rest[i]) {
      assert rest[i] in multiset(rest);
      if rest[i] != x {
        assert rest[i] in multiset(t[1..]);
        var k :| 0 <= k < |t[1..]| && t[1..][k] == rest[i];
        assert t[k + 1] == rest[i];
      }
    }
    var r := [t[0]] + rest;
    forall i, j | 0 <= i < j < |r| ensures key(r[i]) <= key(r[j]) {
      assert r[j] == rest[j - 1];
      if i > 0 { assert r[i] == rest[i - 1]; }
    }
  }

  /** Array.prototype.sort with a comparator that subtracts keys: ascending
      by key, keeping every element. */
  function SortBy<T>(s: seq<T>, key: T -> int): (r: seq<T>)
    ensures SortedBy(r, key)
    ensures multiset(r) == multiset(s)
  {
    if s == [] then []
    else
      assert s == [s[0]] + s[1..];
      Insert(s[0], SortBy(s[1..], key), key)
  }

  // ---------------------------------------------------------------------------
  // Birthdays

  /** `members.filter(m => m.isBirthdayToday())` */
  function TodayBirthdays(ms: seq<Member>, today: Day): seq<Member> {
    Filter(ms, (m: Member) => m.IsBirthdayToday(today))
  }

  /** The birthday projected onto this year with setFullYear, and onto next
      year when that day is not after today (the clock is later in the day
      than the projected midnight). */
  function NextBirthday(d: Day, today: Day): (r: Day)
    ensures Before(today, r)
    ensures r.year == today.year || r.year == today.year + 1
    ensures r.year == today.year + 1 <==> !Before(today, WithYear(d, today.year))
    ensures (r.month == d.month && r.day == d.day) || (d.month == 2 && d.day == 29 && r.month == 3 && r.day == 1)
    ensures d.month == 2 && d.day == 29 ==> (r.month == 2 <==> r.year == today.year && IsLeapYear(today.year))
  {
    var p := WithYear(d, today.year);
    if !Before(today, p) then WithYear(p, today.year + 1) else p
  }

  /** The projection as the source performs it, by updating a copy of the
      date of birth in place. */
  method ProjectBirthday(d: Day, today: Day) returns (dob: Day)
    ensures dob == NextBirthday(d, today)
  {
    dob := d;
    dob := WithYear(dob, today.year);
    if !Before(today, dob) {
      dob := WithYear(dob, today.year + 1);
    }
  }

  /** `Math.ceil(Math.abs(dob - today) / 86400000)`: whole days from today
      to the projected birthday. */
  function DaysUntil(d: Day, today: Day): (n: int)
    ensures n >= 1
  {
    EpochDayMonotone(today, NextBirthday(d, today));
    EpochDay(NextBirthday(d, today)) - EpochDay(today)
  }

  /** The upcoming test: not a birthday today, a valid date of birth, and at
      most 30 days to go. */
  predicate IsUpcoming(m: Member, today: Day) {
    !m.IsBirthdayToday(today) && m.dob.Valid? && DaysUntil(m.dob.date, today) <= 30
  }

  /** The sort key: the day number of the projected birthday. */
  function BirthdayKey(m: Member, today: Day): int {
    if m.dob.Valid? then EpochDay(NextBirthday(m.dob.date, today)) else 0
  }

  /** The upcoming birthdays, soonest first. */
  function Upcoming(ms: seq<Member>, today: Day): seq<Member> {
    SortBy(Filter(ms, (m: Member) => IsUpcoming(m, today)), (m: Member) => BirthdayKey(m, today))
  }

  /** The upcoming list holds each upcoming member as often as the roster
      does, and no one else. */
  lemma UpcomingMembers(ms: seq<Member>, today: Day)
    ensures forall m :: multiset(Upcoming(ms, today))[m] == if IsUpcoming(m, today) then multiset(ms)[m] else 0
  {
    FilterCounts(ms, (m: Member) => IsUpcoming(m, today));
  }

  /** The upcoming list is ordered by the day of the coming birthday. */
  lemma UpcomingOrdered(ms: seq<Member>, today: Day)
    ensures var u := Upcoming(ms, today);
      forall i, j :: 0 <= i < j < |u| ==> BirthdayKey(u[i], today) <= BirthdayKey(u[j], today)
  {
    var key := (m: Member) => BirthdayKey(m, today);
    var u := Upcoming(ms, today);
    assert SortedBy(u, key);
    forall i, j | 0 <= i < j < |u| ensures BirthdayKey(u[i], today) <= BirthdayKey(u[j], today) {
      assert key(u[i]) <= key(u[j]);
    }
  }

  /** An upcoming birthday is 1 to 30 days away; today's birthdays are never upcoming. */
  lemma UpcomingWithinMonth(m: Member, today: Day)
    requires IsUpcoming(m, today)
    ensures 1 <= DaysUntil(m.dob.date, today) <= 30
    ensures m !in TodayBirthdays([m], today)
  {
  }

  /** Only members with a valid date of birth have a birthday today, and
      having one depends on month and day alone. */
  lemma TodayBirthdaysSpec(ms: seq<Member>, today: Day)
    ensures forall m :: m in TodayBirthdays(ms, today) <==>
      m in ms && m.dob.Valid? && m.dob.date.month == today.month && m.dob.date.day == today.day
  {
    var p := (m: Member) => m.IsBirthdayToday(today);
    FilterCounts(ms, p);
    forall m ensures m in TodayBirthdays(ms, today) <==> m in ms && p(m) {
      assert m in TodayBirthdays(ms, today) <==> multiset(TodayBirthdays(ms, today))[m] > 0;
      assert m in ms <==> multiset(ms)[m] > 0;
    }
  }

  // ---------------------------------------------------------------------------
  // Search and removal

  /** The search test: the lower-cased query occurs in the lower-cased name or unit. */
  predicate Matches(m: Member, query: string) {
    Contains(Lower(m.name), Lower(query)) || Contains(Lower(m.unit), Lower(query))
  }

  /** The MemberList filter. */
  function Search(ms: seq<Member>, query: string): (r: seq<Member>)
    ensures forall m: Member :: multiset(r)[m] == if Matches(m, query) then multiset(ms)[m] else 0
    ensures InOrderWithin(r, ms)
  {
    FilterCounts(ms, (m: Member) => Matches(m, query));
    FilterInOrder(ms, (m: Member) => Matches(m, query));
    Filter(ms, (m: Member) => Matches(m, query))
  }

  /** The empty query shows everyone. */
  lemma EmptyQueryKeepsAll(ms: seq<Member>)
    ensures Search(ms, "") == ms
  {
    forall i | 0 <= i < |ms| ensures Matches(ms[i], "") {
      ContainsAt(Lower(ms[i].name), "", 0);
    }
    FilterAll(ms, (m: Member) => Matches(m, ""));
  }

  /** The search ignores the case of the query. */
  lemma SearchIgnoresCase(ms: seq<Member>, query: string)
    ensures Search(ms, Lower(query)) == Search(ms, query)
  {
    LowerIdempotent(query);
    FilterSameTest(ms, (m: Member) => Matches(m, Lower(query)), (m: Member) => Matches(m, query));
  }

  /** Typing more narrows the search: whoever matches a query matches every
      part of it. */
  lemma NarrowingQuery(m: Member, query: string, part: string)
    requires Contains(Lower(query), Lower(part))
    requires Matches(m, query)
    ensures Matches(m, part)
  {
    if Contains(Lower(m.name), Lower(query)) {
      ContainsTransitive(Lower(m.name), Lower(query), Lower(part));
    } else {
      ContainsTransitive(Lower(m.unit), Lower(query), Lower(part));
    }
  }

  /** The delete button: every member with that id goes. */
  function Remove(ms: seq<Member>, id: int): (r: seq<Member>)
    ensures forall i :: 0 <= i < |r| ==> r[i].id != id
    ensures forall m: Member :: m.id != id ==> multiset(r)[m] == multiset(ms)[m]
    ensures InOrderWithin(r, ms)
  {
    FilterCounts(ms, (m: Member) => m.id != id);
    FilterInOrder(ms, (m: Member) => m.id != id);
    Filter(ms, (m: Member) => m.id != id)
  }

  /** Removing twice is removing once, and removals commute. */
  lemma RemoveIdempotent(ms: seq<Member>, a: int, b: int)
    ensures Remove(Remove(ms, a), a) == Remove(ms, a)
    ensures Remove(Remove(ms, a), b) == Remove(Remove(ms, b), a)
  {
    FilterIdempotent(ms, (m: Member) => m.id != a);
    FilterCommute(ms, (m: Member) => m.id != a, (m: Member) => m.id != b);
  }
}
