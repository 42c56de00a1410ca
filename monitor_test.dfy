/** The supervisor's roster of a running test: filtering by status and search text, sorting
    by a chosen key (a stable sort, as `Array.prototype.sort` is), the selected participant,
    the remaining-time label and the list of every recorded violation. All of it is derived
    from the participant list by pure expressions. */
module MonitorTest {
  import opened Wrappers
  import opened Seqs
  import opened Strings

  datatype Violation = Violation(id: string, timestamp: string, kind: string, details: string)

  datatype Snapshot = Snapshot(id: string, timestamp: string, imageUrl: string)

  datatype Participant = Participant(
    id: string,
    name: string,
    email: string,
    status: string,
    progress: int,
    totalQuestions: int,
    startTime: string,
    timeRemaining: nat,
    violations: seq<Violation>,
    snapshots: seq<Snapshot>)

  // ---------------------------------------------------------------- filtering

  /** The filter callback: a status other than "all" must match exactly, and a non-empty
      query must occur, ignoring case, in the name or the email. */
  predicate Matches(p: Participant, filterStatus: string, searchQuery: string)
  {
    if filterStatus != "all" && p.status != filterStatus then false
    else if searchQuery != []
      && !Contains(ToLower(p.name), ToLower(searchQuery))
      && !Contains(ToLower(p.email), ToLower(searchQuery)) then false
    else true
  }

  function MatchFilter(filterStatus: string, searchQuery: string): Participant -> bool
  {
    p => Matches(p, filterStatus, searchQuery)
  }

  // ---------------------------------------------------------------- comparator

  /** The sort comparator: negative when `a` goes first. Names and statuses ascend (code-point
      order stands in for `localeCompare`), progress and violation counts descend, and any
      other key makes every pair a tie. */
  function Order(sortBy: string, a: Participant, b: Participant): int
  {
    if sortBy == "name" then Compare(a.name, b.name)
    else if sortBy == "status" then Compare(a.status, b.status)
    else if sortBy == "progress" then b.progress - a.progress
    else if sortBy == "violations" then |b.violations| - |a.violations|
    else 0
  }

  predicate KnownKey(sortBy: string)
  {
    sortBy == "name" || sortBy == "status" || sortBy == "progress" || sortBy == "violations"
  }

  lemma OrderAntisymmetric(sortBy: string, a: Participant, b: Participant)
    ensures Order(sortBy, b, a) == -Order(sortBy, a, b)
  {
    CompareAntisymmetric(a.name, b.name);
    CompareAntisymmetric(a.status, b.status);
  }

  lemma OrderTransitive(sortBy: string, a: Participant, b: Participant, c: Participant)
    requires Order(sortBy, a, b) <= 0 && Order(sortBy, b, c) <= 0
    ensures Order(sortBy, a, c) <= 0
  {
    if sortBy == "name" {
      CompareTransitive(a.name, b.name, c.name);
    } else if sortBy == "status" {
      CompareTransitive(a.status, b.status, c.status);
    }
  }

  /** A pair that goes strictly first stays strictly first past a pair that does not reverse. */
  lemma OrderStrictTransitive(sortBy: string, a: Participant, b: Participant, c: Participant)
    requires Order(sortBy, a, b) < 0 && Order(sortBy, b, c) <= 0
    ensures Order(sortBy, a, c) < 0
  {
    OrderAntisymmetric(sortBy, a, b);
    OrderAntisymmetric(sortBy, a, c);
    if Order(sortBy, c, a) <= 0 {
      OrderTransitive(sortBy, b, c, a);
    }
  }

  /** Ties form classes: being tied is transitive. */
  lemma OrderTieTransitive(sortBy: string, a: Participant, b: Participant, c: Participant)
    requires Order(sortBy, a, b) == 0 && Order(sortBy, b, c) == 0
    ensures Order(sortBy, a, c) == 0
  {
    OrderAntisymmetric(sortBy, a, b);
    OrderAntisymmetric(sortBy, b, c);
    OrderAntisymmetric(sortBy, a, c);
    OrderTransitive(sortBy, a, b, c);
    OrderTransitive(sortBy, c, b, a);
  }

  ghost predicate SortedBy(sortBy: string, s: seq<Participant>)
  {
    forall i, j :: 0 <= i < j < |s| ==> Order(sortBy, s[i], s[j]) <= 0
  }

  /** The participants that the comparator ties with `x`. */
  function TiedWith(sortBy: string, x: Participant): Participant -> bool
  {
    e => Order(sortBy, e, x) == 0
  }

  // ---------------------------------------------------------------- stable sort

  /** Insert `x` after every element of `t` that does not sort strictly after it. */
  function Insert(sortBy: string, x: Participant, t: seq<Participant>): (r: seq<Participant>)
    ensures multiset(r) == multiset(t) + multiset{x}
  {
    if t == [] then [x]
    else if Order(sortBy, t[0], x) > 0 then [x] + t
    else
      assert t == [t[0]] + t[1..];
      [t[0]] + Insert(sortBy, x, t[1..])
  }

  lemma {:induction false} InsertSorted(sortBy: string, x: Participant, t: seq<Participant>)
    requires SortedBy(sortBy, t)
    ensures SortedBy(sortBy, Insert(sortBy, x, t))
  {
    if t != [] {
      if Order(sortBy, t[0], x) > 0 {
        OrderAntisymmetric(sortBy, t[0], x);
        forall k | 0 <= k < |t| ensures Order(sortBy, x, t[k]) <= 0 {
          if k > 0 {
            OrderTransitive(sortBy, x, t[0], t[k]);
          }
        }
        ConsSorted(sortBy, x, t);
      } else {
        SortedTail(sortBy, t);
        InsertSorted(sortBy, x, t[1..]);
        forall k | 0 <= k < |t[1..]| ensures Order(sortBy, t[0], t[1..][k]) <= 0 {
          assert t[1..][k] == t[k + 1];
        }
        InsertBound(sortBy, t[0], x, t[1..]);
        ConsSorted(sortBy, t[0], Insert(sortBy, x, t[1..]));
      }
    }
  }

  /** An element that sorts no later than every element of a sorted list can go in front of it. */
  lemma ConsSorted(sortBy: string, h: Participant, rest: seq<Participant>)
    requires SortedBy(sortBy, rest)
    requires forall k :: 0 <= k < |rest| ==> Order(sortBy, h, rest[k]) <= 0
    ensures SortedBy(sortBy, [h] + rest)
  {
    var r := [h] + rest;
    forall i, j | 0 <= i < j < |r| ensures Order(sortBy, r[i], r[j]) <= 0 {
      assert r[j] == rest[j - 1];
      if i > 0 {
        assert r[i] == rest[i - 1];
      }
    }
  }

  /** A lower bound of `x` and of every element of `t` bounds every element of the insertion. */
  lemma InsertBound(sortBy: string, h: Participant, x: Participant, t: seq<Participant>)
    requires Order(sortBy, h, x) <= 0
    requires forall k :: 0 <= k < |t| ==> Order(sortBy, h, t[k]) <= 0
    ensures forall k :: 0 <= k < |Insert(sortBy, x, t)| ==> Order(sortBy, h, Insert(sortBy, x, t)[k]) <= 0
  {
    var r := Insert(sortBy, x, t);
    forall k | 0 <= k < |r| ensures Order(sortBy, h, r[k]) <= 0 {
      var e := r[k];
      assert e in multiset(r);
      if e != x {
        assert e in multiset(t);
        var m :| 0 <= m < |t| && t[m] == e;
      }
    }
  }

  /** The roster order: a stable insertion sort under `Order`. */
  function SortParticipants(sortBy: string, s: seq<Participant>): (r: seq<Participant>)
    ensures multiset(r) == multiset(s)
    ensures SortedBy(sortBy, r)
  {
    if s == [] then []
    else
      var t := SortParticipants(sortBy, s[..|s| - 1]);
      InsertSorted(sortBy, s[|s| - 1], t);
      assert s == s[..|s| - 1] + [s[|s| - 1]];
      Insert(sortBy, s[|s| - 1], t)
  }

  /** Nothing in a sorted list that starts strictly after `x` is tied with `x`. */
  lemma NoTieAfterStrict(sortBy: string, x: Participant, t: seq<Participant>, y: Participant)
    requires SortedBy(sortBy, t) && t != []
    requires Order(sortBy, x, t[0]) < 0 && Order(sortBy, x, y) == 0
    ensures Filter(t, TiedWith(sortBy, y)) == []
  {
    var p := TiedWith(sortBy, y);
    if Filter(t, p) != [] {
      var e := Filter(t, p)[0];
      assert e in t && Order(sortBy, e, y) == 0;
      var k :| 0 <= k < |t| && t[k] == e;
      if k > 0 {
        OrderStrictTransitive(sortBy, x, t[0], e);
      }
      OrderAntisymmetric(sortBy, x, y);
      OrderTieTransitive(sortBy, e, y, x);
      OrderAntisymmetric(sortBy, e, x);
      assert false;
    }
  }

  lemma SortedTail(sortBy: string, t: seq<Participant>)
    requires SortedBy(sortBy, t) && t != []
    ensures SortedBy(sortBy, t[1..])
  {
    var tail := t[1..];
    forall i, j | 0 <= i < j < |tail| ensures Order(sortBy, tail[i], tail[j]) <= 0 {
      assert tail[i] == t[i + 1] && tail[j] == t[j + 1];
    }
  }

  /** Inserting into a sorted list adds `x` to its own tie class last, after its earlier members. */
  lemma {:induction false} InsertTieClass(sortBy: string, x: Participant, t: seq<Participant>, y: Participant)
    requires SortedBy(sortBy, t)
    ensures Filter(Insert(sortBy, x, t), TiedWith(sortBy, y))
         == Filter(t, TiedWith(sortBy, y)) + Filter([x], TiedWith(sortBy, y))
  {
    if t == [] {
      assert Insert(sortBy, x, t) == [x];
    } else if Order(sortBy, t[0], x) > 0 {
      InsertFrontTieClass(sortBy, x, t, y);
    } else {
      SortedTail(sortBy, t);
      InsertTieClass(sortBy, x, t[1..], y);
      InsertDeeperTieClass(sortBy, x, t, y);
    }
  }

  lemma InsertFrontTieClass(sortBy: string, x: Participant, t: seq<Participant>, y: Participant)
    requires SortedBy(sortBy, t) && t != [] && Order(sortBy, t[0], x) > 0
    ensures Filter(Insert(sortBy, x, t), TiedWith(sortBy, y))
         == Filter(t, TiedWith(sortBy, y)) + Filter([x], TiedWith(sortBy, y))
  {
    var p := TiedWith(sortBy, y);
    assert Insert(sortBy, x, t) == [x] + t;
    FilterAppend([x], t, p);
    if p(x) {
      OrderAntisymmetric(sortBy, t[0], x);
      NoTieAfterStrict(sortBy, x, t, y);
    } else {
      assert Filter([x], p) == [];
    }
  }

  lemma InsertDeeperTieClass(sortBy: string, x: Participant, t: seq<Participant>, y: Participant)
    requires t != [] && Order(sortBy, t[0], x) <= 0
    requires Filter(Insert(sortBy, x, t[1..]), TiedWith(sortBy, y))
          == Filter(t[1..], TiedWith(sortBy, y)) + Filter([x], TiedWith(sortBy, y))
    ensures Filter(Insert(sortBy, x, t), TiedWith(sortBy, y))
         == Filter(t, TiedWith(sortBy, y)) + Filter([x], TiedWith(sortBy, y))
  {
    var ins := Insert(sortBy, x, t[1..]);
    assert Insert(sortBy, x, t) == [t[0]] + ins;
    SplitFirst(t);
    FilterConsShift(t[0], ins, t[1..], Filter([x], TiedWith(sortBy, y)), TiedWith(sortBy, y));
  }

  /** Stability: within each tie class the sorted list keeps the input order. */
  lemma {:induction false} SortStable(sortBy: string, s: seq<Participant>, y: Participant)
    ensures Filter(SortParticipants(sortBy, s), TiedWith(sortBy, y)) == Filter(s, TiedWith(sortBy, y))
  {
    if s != [] {
      SplitLast(s);
      var init, x := s[..|s| - 1], s[|s| - 1];
      var sortedInit := SortParticipants(sortBy, init);
      SortStable(sortBy, init, y);
      InsertTieClass(sortBy, x, sortedInit, y);
      FilterSnocStep(init, x, sortedInit, Insert(sortBy, x, sortedInit), TiedWith(sortBy, y));
      assert SortParticipants(sortBy, s) == Insert(sortBy, x, sortedInit);
    }
  }

  /** If `sorted` filters like `sortedInit` followed by `x`, and `sortedInit` like `init`, then
      `sorted` filters like `init + [x]`. */
  lemma FilterSnocStep<T>(init: seq<T>, x: T, sortedInit: seq<T>, sorted: seq<T>, p: T -> bool)
    requires Filter(sortedInit, p) == Filter(init, p)
    requires Filter(sorted, p) == Filter(sortedInit, p) + Filter([x], p)
    ensures Filter(sorted, p) == Filter(init + [x], p)
  {
    FilterAppend(init, [x], p);
  }

  lemma {:induction false} InsertUnknownKey(sortBy: string, x: Participant, t: seq<Participant>)
    requires !KnownKey(sortBy)
    ensures Insert(sortBy, x, t) == t + [x]
  {
    if t != [] {
      InsertUnknownKey(sortBy, x, t[1..]);
      SplitFirst(t);
    }
  }

  /** A key the comparator does not know leaves the list in its input order. */
  lemma {:induction false} SortUnknownKey(sortBy: string, s: seq<Participant>)
    requires !KnownKey(sortBy)
    ensures SortParticipants(sortBy, s) == s
  {
    if s != [] {
      SplitLast(s);
      SortUnknownKey(sortBy, s[..|s| - 1]);
      InsertUnknownKey(sortBy, s[|s| - 1], s[..|s| - 1]);
    }
  }

  // ---------------------------------------------------------------- the roster

  /** The roster shown to the supervisor: the matching participants, sorted by `sortBy`. */
  function FilteredParticipants(participants: seq<Participant>, filterStatus: string,
                                searchQuery: string, sortBy: string): (r: seq<Participant>)
    ensures multiset(r) == multiset(Filter(participants, MatchFilter(filterStatus, searchQuery)))
    ensures SortedBy(sortBy, r)
    ensures sortBy == "progress" ==> forall i, j :: 0 <= i < j < |r| ==> r[i].progress >= r[j].progress
    ensures sortBy == "violations" ==> forall i, j :: 0 <= i < j < |r| ==> |r[i].violations| >= |r[j].violations|
    ensures sortBy == "name" ==> forall i, j :: 0 <= i < j < |r| ==> Compare(r[i].name, r[j].name) <= 0
    ensures sortBy == "status" ==> forall i, j :: 0 <= i < j < |r| ==> Compare(r[i].status, r[j].status) <= 0
  {
    SortParticipants(sortBy, Filter(participants, MatchFilter(filterStatus, searchQuery)))
  }

  /** Who is on the roster, and how the roster relates to the participant list. */
  lemma RosterMembership(participants: seq<Participant>, filterStatus: string,
                         searchQuery: string, sortBy: string)
    ensures var r := FilteredParticipants(participants, filterStatus, searchQuery, sortBy);
      forall p :: p in r <==>
        p in participants
        && (filterStatus == "all" || p.status == filterStatus)
        && (searchQuery == [] || Contains(ToLower(p.name), ToLower(searchQuery))
            || Contains(ToLower(p.email), ToLower(searchQuery)))
    ensures var r := FilteredParticipants(participants, filterStatus, searchQuery, sortBy);
      multiset(r) <= multiset(participants) && |r| <= |participants|
  {
    var f := Filter(participants, MatchFilter(filterStatus, searchQuery));
    var r := FilteredParticipants(participants, filterStatus, searchQuery, sortBy);
    FilterMultiset(participants, MatchFilter(filterStatus, searchQuery));
    assert |r| == |multiset(r)| == |multiset(f)|;
    forall p ensures p in r <==> p in f {
      assert p in r <==> p in multiset(r);
      assert p in f <==> p in multiset(f);
    }
  }

  /** Ties keep the order they have in the participant list, and an unknown key sorts nothing. */
  lemma RosterStable(participants: seq<Participant>, filterStatus: string,
                     searchQuery: string, sortBy: string, y: Participant)
    ensures var r := FilteredParticipants(participants, filterStatus, searchQuery, sortBy);
      Filter(r, TiedWith(sortBy, y))
      == Filter(Filter(participants, MatchFilter(filterStatus, searchQuery)), TiedWith(sortBy, y))
    ensures !KnownKey(sortBy) ==>
      FilteredParticipants(participants, filterStatus, searchQuery, sortBy)
      == Filter(participants, MatchFilter(filterStatus, searchQuery))
  {
    var f := Filter(participants, MatchFilter(filterStatus, searchQuery));
    SortStable(sortBy, f, y);
    if !KnownKey(sortBy) {
      SortUnknownKey(sortBy, f);
    }
  }

  // ---------------------------------------------------------------- selection

  /** The details panel: nothing without a (non-empty) selection, otherwise the first
      participant whose id is the selected one, if any. */
  function SelectedParticipant(participants: seq<Participant>, selected: Option<string>): (r: Option<Participant>)
    ensures r.Some? <==> selected.Some? && selected.value != []
                         && exists i :: 0 <= i < |participants| && participants[i].id == selected.value
    ensures r.Some? ==> exists i :: 0 <= i < |participants| && participants[i] == r.value
                         && r.value.id == selected.value
                         && forall j :: 0 <= j < i ==> participants[j].id != selected.value
  {
    if selected.Some? && selected.value != [] then
      Find(participants, (p: Participant) => p.id == selected.value)
    else None
  }

  // ---------------------------------------------------------------- remaining time

  function TimeRemainingHours(seconds: nat): nat
  {
    seconds / 3600
  }

  function TimeRemainingMinutes(seconds: nat): nat
  {
    (seconds % 3600) / 60
  }

  /** The whole hours and minutes cover all but less than a minute of the time. */
  lemma TimeRemainingFields(seconds: nat)
    ensures TimeRemainingMinutes(seconds) < 60
    ensures var covered := TimeRemainingHours(seconds) * 3600 + TimeRemainingMinutes(seconds) * 60;
      covered <= seconds < covered + 60
  {
  }

  /** The "Hh Mm" label; the seconds are dropped. */
  function FormatTimeRemaining(seconds: nat): string
  {
    NatToString(TimeRemainingHours(seconds)) + "h " + NatToString(TimeRemainingMinutes(seconds)) + "m"
  }

  /** The number of leading decimal digits of `s`. */
  function DigitPrefix(s: string): (n: nat)
    ensures n <= |s| && AllDigits(s[..n])
    ensures n < |s| ==> !IsDigit(s[n])
  {
    if s != [] && IsDigit(s[0]) then
      var n := 1 + DigitPrefix(s[1..]);
      assert s[..n] == [s[0]] + s[1..][..n - 1];
      n
    else 0
  }

  lemma {:induction false} DigitPrefixOf(d: string, t: string)
    requires AllDigits(d)
    requires t == [] || !IsDigit(t[0])
    ensures DigitPrefix(d + t) == |d|
  {
    if d != [] {
      assert (d + t)[1..] == d[1..] + t;
      DigitPrefixOf(d[1..], t);
    } else {
      assert d + t == t;
    }
  }

  /** Reads hours and minutes back from an "Hh Mm" label. */
  function ParseTimeRemaining(r: string): Option<(nat, nat)>
  {
    var i := DigitPrefix(r);
    if 0 < i && i + 2 <= |r| && r[i..i + 2] == "h " then
      var rest := r[i + 2..];
      var j := DigitPrefix(rest);
      if 0 < j && rest[j..] == "m" then Some((DigitsValue(r[..i]), DigitsValue(rest[..j])))
      else None
    else None
  }

  /** A label made of two digit strings splits at "h " and at the final "m". */
  lemma {:induction false} LabelFields(h: string, m: string)
    requires AllDigits(h) && AllDigits(m)
    ensures var r := h + "h " + m + "m";
      DigitPrefix(r) == |h| && |h| + 2 <= |r| && r[|h|..|h| + 2] == "h "
      && r[..|h|] == h && r[|h| + 2..] == m + "m"
  {
    var r := h + "h " + m + "m";
    assert r == h + ("h " + m + "m");
    DigitPrefixOf(h, "h " + m + "m");
  }

  /** Any label of two non-empty digit strings reads back as their values. */
  lemma {:induction false} LabelParses(h: string, m: string)
    requires AllDigits(h) && AllDigits(m) && h != [] && m != []
    ensures ParseTimeRemaining(h + "h " + m + "m") == Some((DigitsValue(h), DigitsValue(m)))
  {
    LabelFields(h, m);
    var rest := m + "m";
    DigitPrefixOf(m, "m");
    assert rest[..|m|] == m && rest[|m|..] == "m";
  }

  /** The label determines the hours and minutes it shows. */
  lemma {:induction false} FormatTimeRemainingRoundTrip(seconds: nat)
    ensures ParseTimeRemaining(FormatTimeRemaining(seconds))
         == Some((TimeRemainingHours(seconds), TimeRemainingMinutes(seconds)))
  {
    LabelParses(NatToString(TimeRemainingHours(seconds)), NatToString(TimeRemainingMinutes(seconds)));
    NatToStringValue(TimeRemainingHours(seconds));
    NatToStringValue(TimeRemainingMinutes(seconds));
  }

  // ---------------------------------------------------------------- all violations

  /** One line of the violations tab: the violation and the participant it belongs to. */
  datatype FlaggedViolation = FlaggedViolation(participantId: string, participantName: string, violation: Violation)

  function Flagged(p: Participant): (r: seq<FlaggedViolation>)
    ensures |r| == |p.violations|
    ensures forall k :: 0 <= k < |r| ==> r[k] == FlaggedViolation(p.id, p.name, p.violations[k])
  {
    seq(|p.violations|, k requires 0 <= k < |p.violations| => FlaggedViolation(p.id, p.name, p.violations[k]))
  }

  /** `participants.flatMap(p => p.violations.map(...))`. */
  function AllViolations(participants: seq<Participant>): (r: seq<FlaggedViolation>)
  {
    if participants == [] then [] else Flagged(participants[0]) + AllViolations(participants[1..])
  }

  /** `participants.flatMap(p => p.violations)`, whose length decides the empty notice. */
  function ViolationsOf(participants: seq<Participant>): (r: seq<Violation>)
  {
    if participants == [] then [] else participants[0].violations + ViolationsOf(participants[1..])
  }

  /** The violations tab lists exactly the flattened violations, each tagged with its owner. */
  lemma {:induction false} AllViolationsFlatten(participants: seq<Participant>)
    ensures var r := AllViolations(participants);
      |r| == |ViolationsOf(participants)|
      && forall k :: 0 <= k < |r| ==> r[k].violation == ViolationsOf(participants)[k]
  {
    if participants != [] {
      AllViolationsFlatten(participants[1..]);
      var p := participants[0];
      var r := AllViolations(participants);
      var v := ViolationsOf(participants);
      forall k | 0 <= k < |r| ensures r[k].violation == v[k] {
        if k < |p.violations| {
          assert r[k] == Flagged(p)[k];
        } else {
          assert r[k] == AllViolations(participants[1..])[k - |p.violations|];
          assert v[k] == ViolationsOf(participants[1..])[k - |p.violations|];
        }
      }
    }
  }

  /** Participant order is kept: the list for `ps + qs` is the list for `ps`, then for `qs`. */
  lemma {:induction false} AllViolationsAppend(ps: seq<Participant>, qs: seq<Participant>)
    ensures AllViolations(ps + qs) == AllViolations(ps) + AllViolations(qs)
  {
    if ps == [] {
      assert ps + qs == qs;
    } else {
      assert (ps + qs)[1..] == ps[1..] + qs;
      AllViolationsAppend(ps[1..], qs);
    }
  }

  /** Each line of the tab belongs to a participant that recorded that violation, and every
      recorded violation has a line. */
  lemma {:induction false} AllViolationsMembership(participants: seq<Participant>, f: FlaggedViolation)
    ensures f in AllViolations(participants) <==>
      exists i, k :: 0 <= i < |participants| && 0 <= k < |participants[i].violations|
        && f == FlaggedViolation(participants[i].id, participants[i].name, participants[i].violations[k])
  {
    if participants != [] {
      AllViolationsMembership(participants[1..], f);
      var p := participants[0];
      if f in Flagged(p) {
        var k :| 0 <= k < |Flagged(p)| && Flagged(p)[k] == f;
        assert participants[0].violations[k] == p.violations[k];
      }
      if f in AllViolations(participants[1..]) {
        var i, k :| 0 <= i < |participants[1..]| && 0 <= k < |participants[1..][i].violations|
          && f == FlaggedViolation(participants[1..][i].id, participants[1..][i].name, participants[1..][i].violations[k]);
        assert participants[i + 1] == participants[1..][i];
      }
      if exists i, k :: (0 <= i < |participants| && 0 <= k < |participants[i].violations|
          && f == FlaggedViolation(participants[i].id, participants[i].name, participants[i].violations[k])) {
        var i, k :| 0 <= i < |participants| && 0 <= k < |participants[i].violations|
          && f == FlaggedViolation(participants[i].id, participants[i].name, participants[i].violations[k]);
        if i == 0 {
          assert Flagged(p)[k] == f;
        } else {
          assert participants[1..][i - 1] == participants[i];
        }
      }
    }
  }

  /** "No violations recorded yet." shows exactly when no participant recorded any. */
  predicate ShowsNoViolationsNotice(participants: seq<Participant>)
  {
    |ViolationsOf(participants)| == 0
  }

  lemma {:induction false} NoViolationsNotice(participants: seq<Participant>)
    ensures ShowsNoViolationsNotice(participants)
        <==> forall i :: 0 <= i < |participants| ==> participants[i].violations == []
  {
    if participants != [] {
      NoViolationsNotice(participants[1..]);
      assert forall i :: 1 <= i < |participants| ==> participants[i] == participants[1..][i - 1];
    }
  }
}
