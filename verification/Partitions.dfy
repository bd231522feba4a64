/** A table cut into monthly RANGE partitions with a DEFAULT backstop: the calendar, the data
    definition statements of PostgreSQL that the manager issues, and the manager itself. */
module Partitions {
  import Bits
  import opened Common
  import opened Decimal

  // ---- Months --------------------------------------------------------------------------------

  /** Instants are seconds from the start of year zero, in UTC; month `m` is month `m % 12 + 1` of
      year `m / 12` of the Gregorian calendar. */
  predicate Leap(year: nat) { year % 4 == 0 && (year % 100 != 0 || year % 400 == 0) }

  /** The days of a month, numbered from 0. */
  function DaysIn(year: nat, month: nat): (d: nat)
    ensures 28 <= d <= 31
  {
    if month == 1 then (if Leap(year) then 29 else 28) else if month in {3, 5, 8, 10} then 30 else 31
  }

  function MonthDays(m: nat): nat { DaysIn(m / 12, m % 12) }

  /** The days before a month. */
  function Days(m: nat): nat { if m == 0 then 0 else Days(m - 1) + MonthDays(m - 1) }

  function Start(m: nat): nat { Days(m) * 86_400 }

  lemma {:induction false} StartIncreases(m: nat, n: nat)
    requires m < n
    ensures Days(m) < Days(n) && Start(m) < Start(n)
  {
    if m < n - 1 {
      StartIncreases(m, n - 1);
    }
  }

  /** How many days lie before a month, by years that begin in March: 365 for each year, one more for
      each leap day, and the days of the months before, 153 in every five. */
  function DaysBefore(year: int, month: nat): int {
    60 + if month < 2 then 365 * (year - 1) + LeapDays(year - 1) + MarchMonths(month + 10)
         else 365 * year + LeapDays(year) + MarchMonths(month - 2)
  }

  function LeapDays(year: int): int { year / 4 - year / 100 + year / 400 }

  function MarchMonths(k: int): int { (153 * k + 2) / 5 }

  lemma NextMultiple(year: int, n: int)
    requires n > 0
    ensures year / n == (year - 1) / n + if year % n == 0 then 1 else 0
  {
    var q, r := year / n, year % n;
    if r == 0 {
      Bits.Remainder(year - 1, n, q - 1, n - 1);
    } else {
      Bits.Remainder(year - 1, n, q, r - 1);
    }
  }

  lemma Divides(year: nat, n: nat, k: nat)
    requires n > 0 && k > 0 && year % (n * k) == 0
    ensures year % n == 0
  {
    var q := year / (n * k);
    assert year == n * (k * q);
    Bits.Remainder(year, n, k * q, 0);
  }

  lemma NextLeapDay(year: nat)
    ensures LeapDays(year) == LeapDays(year - 1) + if Leap(year) then 1 else 0
  {
    NextMultiple(year, 4);
    NextMultiple(year, 100);
    NextMultiple(year, 400);
    if year % 400 == 0 {
      Divides(year, 100, 4);
    }
    if year % 100 == 0 {
      Divides(year, 4, 25);
    }
  }

  lemma NextMarchMonth(month: nat)
    requires 2 <= month < 11
    ensures MarchMonths(month - 1) == MarchMonths(month - 2) + if month in {3, 5, 8, 10} then 30 else 31
  {
  }

  lemma MonthAdvances(year: nat, month: nat)
    requires month < 12
    ensures DaysBefore(year, month) + DaysIn(year, month)
            == if month < 11 then DaysBefore(year, month + 1) else DaysBefore(year + 1, 0)
  {
    if month == 1 {
      NextLeapDay(year);
    } else if 2 <= month < 11 {
      NextMarchMonth(month);
    }
  }

  /** The calendar counted month by month is the calendar in closed form. */
  lemma {:induction false} DaysInClosedForm(m: nat, year: nat, month: nat)
    requires month < 12 && m == 12 * year + month
    ensures Days(m) == DaysBefore(year, month)
    decreases m
  {
    if m > 0 {
      var year', month' := if month > 0 then year else year - 1, if month > 0 then month - 1 else 11;
      DaysInClosedForm(m - 1, year', month');
      assert MonthDays(m - 1) == DaysIn(year', month') by {
        Bits.Remainder(m - 1, 12, year', month');
      }
      assert DaysBefore(year', month') + DaysIn(year', month') == DaysBefore(year, month) by {
        MonthAdvances(year', month');
      }
    }
  }

  lemma LeapDaysRepeat(year: int)
    ensures LeapDays(year + 400) == LeapDays(year) + 97
  {
    Bits.Remainder(year + 400, 4, year / 4 + 100, year % 4);
    Bits.Remainder(year + 400, 100, year / 100 + 4, year % 100);
    Bits.Remainder(year + 400, 400, year / 400 + 1, year % 400);
  }

  /** It repeats after 400 years, which have 146097 days. */
  lemma CalendarRepeats(m: nat, later: nat)
    requires later == m + 4800
    ensures Days(later) == Days(m) + 146_097
  {
    var year, month := m / 12, m % 12;
    DaysInClosedForm(m, year, month);
    DaysInClosedForm(later, year + 400, month);
    LeapDaysRepeat(year);
    LeapDaysRepeat(year - 1);
  }

  /** The Unix epoch, January 1970, is 719528 days after the start of year zero. */
  lemma UnixEpoch(m: nat, year: nat)
    requires m == 12 * year && year == 1970
    ensures Days(m) == 719_528
  {
    DaysInClosedForm(m, year, 0);
  }

  function MonthText(m: nat): string { Pad(m / 12, 4) + "_" + Pad(m % 12 + 1, 2) }

  function PartitionName(table: string, m: nat): string { table + "_" + MonthText(m) }

  function DefaultName(table: string): string { table + "_default" }

  lemma MonthTextInjective(m: nat, n: nat)
    requires MonthText(m) == MonthText(n)
    ensures m == n
  {
    PadIsDigits(m / 12, 4);
    PadIsDigits(n / 12, 4);
    SplitAtSeparator(Pad(m / 12, 4), Pad(n / 12, 4), '_', Pad(m % 12 + 1, 2), Pad(n % 12 + 1, 2));
    ParsePad(m / 12, 4);
    ParsePad(n / 12, 4);
    ParsePad(m % 12 + 1, 2);
    ParsePad(n % 12 + 1, 2);
  }

  /** The text reads as the year in at least four digits and the month, from 01 to 12, in two. */
  lemma MonthTextReads(m: nat) returns (year: string, month: string)
    ensures MonthText(m) == year + "_" + month && |year| >= 4 && |month| == 2 && Digits(year) && Digits(month)
    ensures 1 <= ParseNat(month) <= 12 && m == 12 * ParseNat(year) + ParseNat(month) - 1
  {
    year, month := Pad(m / 12, 4), Pad(m % 12 + 1, 2);
    PadIsDigits(m / 12, 4);
    PadIsDigits(m % 12 + 1, 2);
    ParsePad(m / 12, 4);
    ParsePad(m % 12 + 1, 2);
    assert |FormatNat(m % 12 + 1)| <= 2;
  }

  /** Months have distinct partition names, and none is the name of the backstop. */
  lemma NamesAreDistinct(table: string, m: nat, n: nat)
    ensures PartitionName(table, m) == PartitionName(table, n) ==> m == n
    ensures PartitionName(table, m) != DefaultName(table)
  {
    var a, b := PartitionName(table, m), PartitionName(table, n);
    var k := |table| + 1;
    assert a[k..] == MonthText(m) && b[k..] == MonthText(n);
    if a == b {
      MonthTextInjective(m, n);
    }
    PadIsDigits(m / 12, 4);
    assert a[k] == Pad(m / 12, 4)[0] && DefaultName(table)[k] == 'd';
  }

  /** How a table is cut: where each month starts, what its partition is called, and the backstop. */
  datatype Scheme = Scheme(start: nat -> nat, name: nat -> string, def: string) {
    ghost predicate Valid() {
      && start(0) == 0
      && (forall m: nat, n: nat :: m < n ==> start(m) < start(n))
      && (forall m: nat, n: nat :: name(m) == name(n) ==> m == n)
      && (forall m: nat :: name(m) != def)
    }

    predicate InMonth(t: nat, m: nat) { start(m) <= t < start(m + 1) }
  }

  /** The scheme in use: calendar months, named by year and month after the table. */
  function Monthly(table: string): Scheme {
    Scheme((m: nat) => Start(m), (m: nat) => PartitionName(table, m), DefaultName(table))
  }

  lemma MonthlyIsValid(table: string)
    ensures Monthly(table).Valid()
  {
    forall m: nat, n: nat
      ensures m < n ==> Start(m) < Start(n)
      ensures PartitionName(table, m) == PartitionName(table, n) ==> m == n
      ensures PartitionName(table, m) != DefaultName(table)
    {
      NamesAreDistinct(table, m, n);
      if m < n {
        StartIncreases(m, n);
      }
    }
  }

  function MonthFrom(sch: Scheme, t: nat, m: nat): (k: nat)
    requires sch.Valid() && sch.start(m) <= t
    ensures sch.InMonth(t, k)
    decreases t - sch.start(m)
  {
    assert sch.start(m) < sch.start(m + 1);
    if t < sch.start(m + 1) then m else MonthFrom(sch, t, m + 1)
  }

  /** The month of an instant. */
  function MonthOf(sch: Scheme, t: nat): (m: nat)
    requires sch.Valid()
    ensures sch.InMonth(t, m)
  {
    MonthFrom(sch, t, 0)
  }

  // ---- The database ----------------------------------------------------------------------------

  datatype Row = Row(id: int, createdAt: nat)

  /** An attached range partition. `readable` says that its bounds are two timestamps of the form
      the manager can read back from the catalog. */
  datatype Part = Part(name: string, from: nat, to: nat, readable: bool, rows: seq<Row>)

  datatype Default = Default(name: string, rows: seq<Row>)

  /** The partitioned table with its attached partitions, and the other relations of the schema. */
  datatype State = State(parts: seq<Part>, def: Option<Default>, others: map<string, seq<Row>>)

  predicate Exists(s: State, name: string) {
    || name in s.others
    || (s.def.Some? && s.def.value.name == name)
    || exists i :: 0 <= i < |s.parts| && s.parts[i].name == name
  }

  predicate Within(t: nat, from: nat, to: nat) { from <= t < to }

  predicate Covers(p: Part, t: nat) { Within(t, p.from, p.to) }

  predicate Covered(s: State, t: nat) { exists i :: 0 <= i < |s.parts| && Covers(s.parts[i], t) }

  predicate Overlaps(p: Part, from: nat, to: nat) { p.from < to && from < p.to }

  /** Ranges overlap exactly if they share an instant; adjacent ones do not. */
  lemma OverlapIsASharedInstant(p: Part, from: nat, to: nat)
    requires p.from < p.to && from < to
    ensures Overlaps(p, from, to) <==> exists t: nat :: Covers(p, t) && Within(t, from, to)
  {
    if Overlaps(p, from, to) {
      var t := Max(p.from, from);
      assert Covers(p, t) && Within(t, from, to);
    }
  }

  predicate Free(parts: seq<Part>, from: nat, to: nat) {
    forall i :: 0 <= i < |parts| ==> !Overlaps(parts[i], from, to)
  }

  predicate NoneWithin(rows: seq<Row>, from: nat, to: nat) {
    forall i :: 0 <= i < |rows| ==> !Within(rows[i].createdAt, from, to)
  }

  function DefaultRowsOf(s: State): seq<Row> { if s.def.Some? then s.def.value.rows else [] }

  /** A new range is refused when it overlaps an attached one or when the backstop holds a row of it. */
  predicate CanAttach(s: State, from: nat, to: nat) {
    from < to && Free(s.parts, from, to) && NoneWithin(DefaultRowsOf(s), from, to)
  }

  // Statements; `None` is an error, which leaves the database as it was.

  function CreateRange(s: State, name: string, from: nat, to: nat, readable: bool): Option<State> {
    if Exists(s, name) || !CanAttach(s, from, to) then None
    else Some(s.(parts := s.parts + [Part(name, from, to, readable, [])]))
  }

  function CreateDefault(s: State, name: string): Option<State> {
    if Exists(s, name) || s.def.Some? then None else Some(s.(def := Some(Default(name, []))))
  }

  function CreateTable(s: State, name: string): Option<State> {
    if Exists(s, name) then None else Some(s.(others := s.others[name := []]))
  }

  function DetachDefault(s: State, name: string): Option<State> {
    if s.def.None? || s.def.value.name != name then None
    else Some(s.(def := None, others := s.others[name := s.def.value.rows]))
  }

  function Keep(rows: seq<Row>, from: nat, to: nat): seq<Row> {
    if rows == [] then []
    else (if Within(rows[0].createdAt, from, to) then [rows[0]] else []) + Keep(rows[1..], from, to)
  }

  function Discard(rows: seq<Row>, from: nat, to: nat): seq<Row> {
    if rows == [] then []
    else (if Within(rows[0].createdAt, from, to) then [] else [rows[0]]) + Discard(rows[1..], from, to)
  }

  /** Copies the rows of a range from one unattached table to another. */
  function InsertSelect(s: State, into: string, source: string, from: nat, to: nat): Option<State> {
    if into !in s.others || source !in s.others then None
    else Some(s.(others := s.others[into := s.others[into] + Keep(s.others[source], from, to)]))
  }

  function DeleteRange(s: State, name: string, from: nat, to: nat): Option<State> {
    if name !in s.others then None
    else Some(s.(others := s.others[name := Discard(s.others[name], from, to)]))
  }

  function AttachRange(s: State, name: string, from: nat, to: nat): Option<State> {
    if name !in s.others || !CanAttach(s, from, to) || Discard(s.others[name], from, to) != [] then None
    else Some(s.(parts := s.parts + [Part(name, from, to, true, s.others[name])], others := s.others - {name}))
  }

  function AttachDefault(s: State, name: string): Option<State> {
    if s.def.Some? || name !in s.others
       || exists i :: 0 <= i < |s.others[name]| && Covered(s, s.others[name][i].createdAt)
    then None
    else Some(s.(def := Some(Default(name, s.others[name])), others := s.others - {name}))
  }

  function Home(parts: seq<Part>, t: nat): (i: nat)
    ensures i <= |parts| && (i < |parts| ==> Covers(parts[i], t))
    ensures i == |parts| ==> forall j :: 0 <= j < |parts| ==> !Covers(parts[j], t)
  {
    if parts == [] || Covers(parts[0], t) then 0 else 1 + Home(parts[1..], t)
  }

  /** A row goes to the partition whose range covers it, else to the backstop, else it is rejected. */
  function Insert(s: State, r: Row): Option<State> {
    var i := Home(s.parts, r.createdAt);
    if i < |s.parts| then
      Some(s.(parts := s.parts[i := s.parts[i].(rows := s.parts[i].rows + [r])]))
    else if s.def.Some? then Some(s.(def := Some(s.def.value.(rows := s.def.value.rows + [r]))))
    else None
  }

  // ---- What always holds -------------------------------------------------------------------------

  ghost predicate Disjoint(parts: seq<Part>) {
    forall i, j :: 0 <= i < j < |parts| ==> !Overlaps(parts[i], parts[j].from, parts[j].to)
  }

  ghost predicate Fits(p: Part) {
    p.from < p.to && forall k :: 0 <= k < |p.rows| ==> Covers(p, p.rows[k].createdAt)
  }

  /** Relation names are unique; ranges are disjoint; a row is in a range partition that covers it,
      or in the backstop, and then no range covers it. */
  ghost predicate Inv(s: State) {
    && (forall i, j :: 0 <= i < j < |s.parts| ==> s.parts[i].name != s.parts[j].name)
    && (forall i :: 0 <= i < |s.parts| ==>
         && s.parts[i].name !in s.others
         && (s.def.Some? ==> s.parts[i].name != s.def.value.name))
    && (s.def.Some? ==> s.def.value.name !in s.others)
    && Disjoint(s.parts)
    && (forall i :: 0 <= i < |s.parts| ==> Fits(s.parts[i]))
    && forall k :: 0 <= k < |DefaultRowsOf(s)| ==> !Covered(s, DefaultRowsOf(s)[k].createdAt)
  }

  lemma CreateRangeKeeps(s: State, name: string, from: nat, to: nat, readable: bool)
    requires Inv(s) && CreateRange(s, name, from, to, readable).Some?
    ensures Inv(CreateRange(s, name, from, to, readable).value)
  {
  }

  /** Attaching one more range adds that range to what is covered, and nothing else. */
  lemma AttachedCoverage(s: State, t: State)
    requires |t.parts| == |s.parts| + 1 && t.parts[..|s.parts|] == s.parts
    ensures forall x: nat :: Covered(t, x) <==> Covered(s, x) || Covers(t.parts[|s.parts|], x)
  {
  }

  lemma InsertKeeps(s: State, r: Row)
    requires Inv(s) && Insert(s, r).Some?
    ensures Inv(Insert(s, r).value)
  {
    var t := Insert(s, r).value;
    var h := Home(s.parts, r.createdAt);
    assert |t.parts| == |s.parts|;
    assert forall i :: 0 <= i < |s.parts| ==>
      t.parts[i].name == s.parts[i].name && t.parts[i].from == s.parts[i].from && t.parts[i].to == s.parts[i].to;
    assert forall x: nat :: Covered(t, x) <==> Covered(s, x) by { SameCoverage(s, t); }
    if h < |s.parts| {
      assert Fits(t.parts[h]);
      assert DefaultRowsOf(t) == DefaultRowsOf(s);
    } else {
      assert DefaultRowsOf(t) == DefaultRowsOf(s) + [r] && !Covered(s, r.createdAt);
    }
  }

  lemma SameCoverage(s: State, t: State)
    requires |t.parts| == |s.parts|
    requires forall i :: 0 <= i < |s.parts| ==> t.parts[i].from == s.parts[i].from && t.parts[i].to == s.parts[i].to
    ensures forall x: nat :: Covered(t, x) <==> Covered(s, x)
  {
  }

  // ---- Every stored row -----------------------------------------------------------------------------

  function PartRows(parts: seq<Part>): multiset<Row> {
    if parts == [] then multiset{} else multiset(parts[0].rows) + PartRows(parts[1..])
  }

  function Stored(s: State): multiset<Row> { PartRows(s.parts) + multiset(DefaultRowsOf(s)) }

  lemma {:induction false} PartRowsConcat(a: seq<Part>, b: seq<Part>)
    ensures PartRows(a + b) == PartRows(a) + PartRows(b)
  {
    if a == [] {
      assert a + b == b;
    } else {
      assert (a + b)[1..] == a[1..] + b;
      PartRowsConcat(a[1..], b);
    }
  }

  lemma PartRowsOneMore(a: seq<Part>, p: Part)
    ensures PartRows(a + [p]) == PartRows(a) + multiset(p.rows)
  {
    PartRowsConcat(a, [p]);
    assert [p][1..] == [];
  }

  lemma {:induction false} PartRowsReplace(parts: seq<Part>, i: nat, q: Part, r: Row)
    requires i < |parts|
    ensures PartRows(parts[i := q])[r] + multiset(parts[i].rows)[r] == PartRows(parts)[r] + multiset(q.rows)[r]
  {
    if i == 0 {
      assert parts[0 := q][1..] == parts[1..];
    } else {
      assert parts[i := q][1..] == parts[1..][i - 1 := q];
      PartRowsReplace(parts[1..], i - 1, q, r);
    }
  }

  /** An accepted insert adds the row to what is stored, and changes nothing else. */
  lemma InsertStores(s: State, w: Row, r: Row)
    requires Insert(s, w).Some?
    ensures Stored(Insert(s, w).value)[r] == Stored(s)[r] + if r == w then 1 else 0
  {
    var i := Home(s.parts, w.createdAt);
    if i < |s.parts| {
      PartRowsReplace(s.parts, i, s.parts[i].(rows := s.parts[i].rows + [w]), r);
    }
  }

  /** Splitting rows by a range loses and invents none. */
  lemma {:induction false} KeepAndDiscard(rows: seq<Row>, from: nat, to: nat)
    ensures multiset(rows) == multiset(Keep(rows, from, to)) + multiset(Discard(rows, from, to))
  {
    if rows != [] {
      KeepAndDiscard(rows[1..], from, to);
      assert rows == [rows[0]] + rows[1..];
    }
  }

  lemma {:induction false} KeepIsWithin(rows: seq<Row>, from: nat, to: nat)
    ensures forall k :: 0 <= k < |Keep(rows, from, to)| ==> Within(Keep(rows, from, to)[k].createdAt, from, to)
    ensures Discard(Keep(rows, from, to), from, to) == []
  {
    if rows != [] {
      KeepIsWithin(rows[1..], from, to);
      if Within(rows[0].createdAt, from, to) {
        assert Keep(rows, from, to)[1..] == Keep(rows[1..], from, to);
      } else {
        assert Keep(rows, from, to) == Keep(rows[1..], from, to);
      }
    }
  }

  lemma {:induction false} DiscardIsOutside(rows: seq<Row>, from: nat, to: nat)
    ensures NoneWithin(Discard(rows, from, to), from, to)
    ensures forall k :: 0 <= k < |Discard(rows, from, to)| ==> Discard(rows, from, to)[k] in rows
  {
    if rows != [] {
      DiscardIsOutside(rows[1..], from, to);
    }
  }

  // ---- Rolling forward --------------------------------------------------------------------------------

  datatype Outcome = Outcome(db: State, names: seq<string>, ok: bool)

  function EnsureDefault(s: State, sch: Scheme): Option<State> {
    if Exists(s, sch.def) then Some(s) else CreateDefault(s, sch.def)
  }

  /** One round of the loop: nothing when a relation of that name exists, else one statement. */
  function EnsureMonth(o: Outcome, sch: Scheme, m: nat): Outcome {
    var name := sch.name(m);
    if !o.ok || Exists(o.db, name) then o else
    var t := CreateRange(o.db, name, sch.start(m), sch.start(m + 1), true);
    if t.None? then o.(ok := false) else Outcome(t.value, o.names + [name], true)
  }

  /** The first `n` months from month `m`, in order; stops at the first refused statement. */
  function EnsureMonths(s: State, sch: Scheme, m: nat, n: nat): Outcome {
    if n == 0 then Outcome(s, [], true) else EnsureMonth(EnsureMonths(s, sch, m, n - 1), sch, m + n - 1)
  }

  /** One call. The connection gives out after `gives` rounds of the loop, if there are so many. */
  function Ensured(s: State, sch: Scheme, now: nat, ahead: nat, gives: nat): Outcome
    requires sch.Valid()
  {
    var t := EnsureDefault(s, sch);
    if t.None? then Outcome(s, [], false) else
    var o := EnsureMonths(t.value, sch, MonthOf(sch, now), Min(gives, ahead + 1));
    o.(ok := o.ok && gives > ahead)
  }

  // ---- Retention ------------------------------------------------------------------------------------

  /** The manager may drop a partition whose bounds it can read and whose range ends by the cutoff. */
  predicate Expired(p: Part, cutoff: nat) { p.readable && p.to <= cutoff }

  function Without(parts: seq<Part>, names: seq<string>): seq<Part> {
    if parts == [] then []
    else (if parts[0].name in names then [] else [parts[0]]) + Without(parts[1..], names)
  }

  function ExpiredNames(parts: seq<Part>, cutoff: nat): seq<string> {
    if parts == [] then []
    else (if Expired(parts[0], cutoff) then [parts[0].name] else []) + ExpiredNames(parts[1..], cutoff)
  }

  /** A call that drops the first `n` of the expired partitions, or all of them. */
  function Dropped(s: State, cutoff: nat, n: nat): State {
    var names := ExpiredNames(s.parts, cutoff);
    s.(parts := Without(s.parts, names[..Min(n, |names|)]))
  }

  lemma {:induction false} WithoutMembers(parts: seq<Part>, names: seq<string>)
    ensures forall p :: p in Without(parts, names) <==> p in parts && p.name !in names
  {
    if parts != [] {
      WithoutMembers(parts[1..], names);
      assert parts == [parts[0]] + parts[1..];
    }
  }

  ghost predicate Apart(parts: seq<Part>) {
    forall i, j :: 0 <= i < j < |parts| ==>
      parts[i].name != parts[j].name && !Overlaps(parts[i], parts[j].from, parts[j].to)
  }

  lemma {:induction false} WithoutKeepsApart(parts: seq<Part>, names: seq<string>)
    requires Apart(parts)
    ensures Apart(Without(parts, names))
  {
    if parts != [] {
      var rest := Without(parts[1..], names);
      WithoutKeepsApart(parts[1..], names);
      WithoutMembers(parts[1..], names);
      forall j | 0 <= j < |rest|
        ensures rest[j].name != parts[0].name && !Overlaps(parts[0], rest[j].from, rest[j].to)
      {
        var k :| 0 <= k < |parts[1..]| && parts[1..][k] == rest[j];
        assert parts[k + 1] == rest[j];
      }
    }
  }

  /** Dropping partitions breaks nothing, whichever they are. */
  lemma WithoutKeeps(s: State, names: seq<string>)
    requires Inv(s)
    ensures Inv(s.(parts := Without(s.parts, names)))
  {
    var t := s.(parts := Without(s.parts, names));
    assert Apart(s.parts);
    WithoutKeepsApart(s.parts, names);
    WithoutMembers(s.parts, names);
    assert Apart(t.parts);
    forall i | 0 <= i < |t.parts|
      ensures t.parts[i].name !in t.others && (t.def.Some? ==> t.parts[i].name != t.def.value.name) && Fits(t.parts[i])
    {
      assert t.parts[i] in s.parts;
    }
    forall x: nat | Covered(t, x)
      ensures Covered(s, x)
    {
      var i :| 0 <= i < |t.parts| && Covers(t.parts[i], x);
      assert t.parts[i] in s.parts;
    }
    assert DefaultRowsOf(t) == DefaultRowsOf(s);
  }

  lemma {:induction false} ExpiredNamesOneMore(parts: seq<Part>, p: Part, cutoff: nat)
    ensures ExpiredNames(parts + [p], cutoff)
            == ExpiredNames(parts, cutoff) + if Expired(p, cutoff) then [p.name] else []
  {
    if parts == [] {
      assert parts + [p] == [p] && [p][1..] == [];
    } else {
      assert (parts + [p])[0] == parts[0] && (parts + [p])[1..] == parts[1..] + [p];
      ExpiredNamesOneMore(parts[1..], p, cutoff);
    }
  }

  lemma {:induction false} ExpiredNamesMembers(parts: seq<Part>, cutoff: nat)
    ensures forall name :: name in ExpiredNames(parts, cutoff) <==>
              exists p :: p in parts && p.name == name && Expired(p, cutoff)
  {
    if parts != [] {
      ExpiredNamesMembers(parts[1..], cutoff);
      assert parts == [parts[0]] + parts[1..];
    }
  }

  /** Dropping by name removes whole partitions: a row is lost only with an expired one. */
  lemma {:induction false} WithoutRows(parts: seq<Part>, names: seq<string>, cutoff: nat, r: Row)
    requires forall p :: p in parts ==> Fits(p) && (p.name in names ==> p.to <= cutoff)
    ensures PartRows(Without(parts, names))[r] <= PartRows(parts)[r]
    ensures r.createdAt >= cutoff ==> PartRows(Without(parts, names))[r] == PartRows(parts)[r]
  {
    if parts != [] {
      WithoutRows(parts[1..], names, cutoff, r);
      assert forall p :: p in parts[1..] ==> p in parts;
      assert parts[0] in parts;
      var head := if parts[0].name in names then [] else [parts[0]];
      PartRowsConcat(head, Without(parts[1..], names));
      if parts[0].name !in names {
        assert [parts[0]][1..] == [];
      } else if r in parts[0].rows {
        assert Covers(parts[0], r.createdAt);
      }
    }
  }

  // ---- The manager ----------------------------------------------------------------------------------

  /** The month can be taken over: its name is free, the backstop is attached under its own name,
      and no attached range overlaps the month. */
  predicate Adoptable(s: State, sch: Scheme, m: nat) {
    && !Exists(s, sch.name(m))
    && s.def.Some? && s.def.value.name == sch.def
    && Free(s.parts, sch.start(m), sch.start(m + 1))
  }

  function Adopted(s: State, sch: Scheme, m: nat): State
    requires Adoptable(s, sch, m)
  {
    var rows := s.def.value.rows;
    s.(parts := s.parts + [Part(sch.name(m), sch.start(m), sch.start(m + 1), true,
        Keep(rows, sch.start(m), sch.start(m + 1)))],
       def := Some(Default(sch.def, Discard(rows, sch.start(m), sch.start(m + 1)))))
  }

  datatype Listed = Listed(name: string, to: nat, isDefault: bool)

  function Listing(parts: seq<Part>): seq<Listed> {
    if parts == [] then []
    else (if parts[0].readable then [Listed(parts[0].name, parts[0].to, false)] else []) + Listing(parts[1..])
  }

  lemma {:induction false} ListingOneMore(parts: seq<Part>, p: Part)
    ensures Listing(parts + [p]) == Listing(parts) + if p.readable then [Listed(p.name, p.to, false)] else []
  {
    if parts == [] {
      assert parts + [p] == [p] && [p][1..] == [];
    } else {
      assert (parts + [p])[1..] == parts[1..] + [p] && (parts + [p])[0] == parts[0];
      ListingOneMore(parts[1..], p);
    }
  }

  function DueNames(listing: seq<Listed>, cutoff: nat): seq<string> {
    if listing == [] then []
    else
      var due := !listing[0].isDefault && listing[0].to <= cutoff;
      (if due then [listing[0].name] else []) + DueNames(listing[1..], cutoff)
  }

  lemma {:induction false} DueOneMore(listing: seq<Listed>, l: Listed, cutoff: nat)
    ensures DueNames(listing + [l], cutoff) ==
            DueNames(listing, cutoff) + if !l.isDefault && l.to <= cutoff then [l.name] else []
  {
    if listing == [] {
      assert listing + [l] == [l] && [l][1..] == [];
    } else {
      assert (listing + [l])[1..] == listing[1..] + [l] && (listing + [l])[0] == listing[0];
      DueOneMore(listing[1..], l, cutoff);
    }
  }

  /** What the listing lets the manager drop is exactly what has expired. */
  lemma {:induction false} DueIsExpired(parts: seq<Part>, cutoff: nat)
    ensures DueNames(Listing(parts), cutoff) == ExpiredNames(parts, cutoff)
  {
    if parts != [] {
      DueIsExpired(parts[1..], cutoff);
      if parts[0].readable {
        assert Listing(parts)[1..] == Listing(parts[1..]);
      } else {
        assert Listing(parts) == Listing(parts[1..]);
      }
    }
  }

  lemma {:induction false} WithoutTwice(parts: seq<Part>, names: seq<string>, name: string)
    ensures Without(Without(parts, names), [name]) == Without(parts, names + [name])
  {
    if parts != [] {
      var rest := Without(parts[1..], names);
      WithoutTwice(parts[1..], names, name);
      if parts[0].name in names {
        assert Without(parts, names) == rest;
      } else {
        assert Without(parts, names)[1..] == rest;
      }
    }
  }

  lemma {:induction false} WithoutNone(parts: seq<Part>)
    ensures Without(parts, []) == parts
  {
    if parts != [] {
      WithoutNone(parts[1..]);
    }
  }

  lemma {:induction false} DueIsMonotone(listing: seq<Listed>, i: nat, cutoff: nat)
    requires i <= |listing|
    ensures DueNames(listing[..i], cutoff) <= DueNames(listing, cutoff)
    decreases |listing| - i
  {
    if i < |listing| {
      DueIsMonotone(listing, i + 1, cutoff);
      assert listing[..i + 1] == listing[..i] + [listing[i]];
      DueOneMore(listing[..i], listing[i], cutoff);
    } else {
      assert listing[..i] == listing;
    }
  }

  predicate SafeChar(c: char, first: bool) { 'a' <= c <= 'z' || c == '_' || (!first && '0' <= c <= '9') }

  predicate SafeIdent(s: string) {
    s != [] && forall i :: 0 <= i < |s| ==> SafeChar(s[i], i == 0)
  }

  lemma SafeTail(s: string, t: string)
    requires SafeIdent(s) && forall i :: 0 <= i < |t| ==> SafeChar(t[i], false)
    ensures SafeIdent(s + t)
  {
  }

  /** The names that the manager builds into its statements are as safe as the table's own, and none
      is a number. */
  lemma NamesStaySafe(table: string, m: nat)
    requires SafeIdent(table)
    ensures SafeIdent(PartitionName(table, m)) && SafeIdent(DefaultName(table))
    ensures !IsDigit(PartitionName(table, m)[0]) && !IsDigit(DefaultName(table)[0])
  {
    PadIsDigits(m / 12, 4);
    PadIsDigits(m % 12 + 1, 2);
    SafeTail(table, "_" + MonthText(m));
    assert table + "_" + MonthText(m) == table + ("_" + MonthText(m));
    SafeTail(table, "_default");
  }

  class Manager {
    var db: State
    const sch: Scheme
    const ahead: nat

    constructor (db: State, table: string, ahead: int)
      ensures this.db == db && this.sch == Monthly(table) && this.ahead == if ahead < 1 then 1 else ahead
    {
      this.db, this.sch := db, Monthly(table);
      this.ahead := if ahead < 1 then 1 else ahead;
    }

    /** Refuses a table name that cannot stand unquoted in a statement; provisions at least one month ahead. */
    static method New(db: State, table: string, ahead: int) returns (m: Option<Manager>)
      ensures m.Some? <==> SafeIdent(table)
      ensures m.Some?
          ==> m.value.db == db && m.value.sch == Monthly(table) && m.value.ahead == if ahead < 1 then 1 else ahead
    {
      if !SafeIdent(table) {
        return None;
      }
      var manager := new Manager(db, table, ahead);
      return Some(manager);
    }

    method Round(m: nat, created: seq<string>) returns (names: seq<string>, ok: bool)
      modifies `db
      ensures Outcome(db, names, ok) == EnsureMonth(Outcome(old(db), created, true), sch, m)
    {
      names, ok := created, true;
      var name := sch.name(m);
      if Exists(db, name) {
        return;
      }
      var t := CreateRange(db, name, sch.start(m), sch.start(m + 1), true);
      if t.None? {
        return names, false;
      }
      db := t.value;
      names := names + [name];
    }

    method Backstop() returns (ok: bool)
      modifies `db
      ensures var t := EnsureDefault(old(db), sch); if t.None? then !ok && db == old(db) else ok && db == t.value
    {
      if Exists(db, sch.def) {
        return true;
      }
      var t := CreateDefault(db, sch.def);
      if t.None? {
        return false;
      }
      db := t.value;
      return true;
    }

    method Rounds(start: nat, gives: nat) returns (created: seq<string>, ok: bool)
      modifies `db
      ensures var o := EnsureMonths(old(db), sch, start, Min(gives, ahead + 1));
              db == o.db && created == o.names && ok == (o.ok && gives > ahead)
    {
      created, ok := [], true;
      for i := 0 to ahead + 1
        invariant ok && i <= gives && Outcome(db, created, ok) == EnsureMonths(old(db), sch, start, i)
      {
        if i == gives {
          return created, false;
        }
        created, ok := Round(start + i, created);
        if !ok {
          FailureIsFinal(old(db), sch, start, i + 1, Min(gives, ahead + 1));
          return;
        }
      }
    }

    /** Creates the backstop and then every missing month from the current one on. */
    method Ensure(now: nat, gives: nat) returns (created: seq<string>, ok: bool)
      requires sch.Valid()
      modifies `db
      ensures Outcome(db, created, ok) == Ensured(old(db), sch, now, ahead, gives)
    {
      created := [];
      ok := Backstop();
      if !ok {
        return;
      }
      created, ok := Rounds(MonthOf(sch, now), gives);
    }

    /** Range partitions with readable bounds, and the backstop last. */
    method List() returns (out: seq<Listed>)
      ensures out == Listing(db.parts) + if db.def.Some? then [Listed(db.def.value.name, 0, true)] else []
    {
      out := [];
      for i := 0 to |db.parts|
        invariant out == Listing(db.parts[..i])
      {
        var p := db.parts[i];
        assert db.parts[..i + 1] == db.parts[..i] + [p];
        ListingOneMore(db.parts[..i], p);
        if !p.readable {
          continue;
        }
        out := out + [Listed(p.name, p.to, false)];
      }
      assert db.parts[..|db.parts|] == db.parts;
      if db.def.Some? {
        out := out + [Listed(db.def.value.name, 0, true)];
      }
    }

    /** Drops what has expired, one relation at a time; stops after `gives` drops if the connection
        gives out. */
    method DropOlderThan(cutoff: nat, gives: nat) returns (dropped: seq<string>, ok: bool)
      modifies `db
      ensures db == Dropped(old(db), cutoff, gives)
      ensures var names := ExpiredNames(old(db).parts, cutoff);
              dropped == names[..Min(gives, |names|)] && ok == (|names| <= gives)
    {
      var listing := List();
      ghost var names := ExpiredNames(db.parts, cutoff);
      DueOfListing(db, listing, cutoff);
      dropped := [];
      WithoutNone(db.parts);
      for i := 0 to |listing|
        invariant dropped == DueNames(listing[..i], cutoff) && |dropped| <= gives
        invariant db == old(db).(parts := Without(old(db).parts, dropped))
      {
        var p := listing[i];
        DueIsMonotone(listing, i, cutoff);
        DueIsMonotone(listing, i + 1, cutoff);
        assert listing[..i + 1] == listing[..i] + [p];
        DueOneMore(listing[..i], p, cutoff);
        if p.isDefault {
          continue;
        }
        if p.to <= cutoff {
          if |dropped| == gives {
            assert dropped == names[..gives];
            return dropped, false;
          }
          WithoutTwice(old(db).parts, dropped, p.name);
          db := db.(parts := Without(db.parts, [p.name]));
          dropped := dropped + [p.name];
        }
      }
      assert listing[..|listing|] == listing && names[..|names|] == names;
      ok := true;
    }

    /** Moves the rows of a month from the backstop into a partition of their own, in one
        transaction: on an error the database is what it was. */
    method Adopt(month: nat) returns (moved: nat, ok: bool)
      requires sch.Valid() && Inv(db)
      modifies `db
      ensures var m := MonthOf(sch, month);
              && ok == Adoptable(old(db), sch, m)
              && (ok ==> db == Adopted(old(db), sch, m))
              && (ok ==> moved == |Keep(old(db).def.value.rows, sch.start(m), sch.start(m + 1))|)
              && (!ok ==> db == old(db))
    {
      var m := MonthOf(sch, month);
      if Exists(db, sch.name(m)) {
        return 0, false;
      }
      var tx;
      tx, moved := MoveRows(db, sch.def, sch.name(m), sch.start(m), sch.start(m + 1));
      if tx.None? {
        return 0, false;
      }
      tx := AttachAgain(db, tx.value, sch.def, sch.name(m), sch.start(m), sch.start(m + 1));
      if tx.None? {
        return moved, false;
      }
      db := tx.value;
      ok := true;
    }
  }

  /** What stays in the backstop is not covered once a range is attached for what left it. */
  lemma RestIsUncovered(s: State, t: State, from: nat, to: nat, rest: seq<Row>)
    requires Inv(s) && s.def.Some? && |t.parts| == |s.parts| + 1 && t.parts[..|s.parts|] == s.parts
    requires t.parts[|s.parts|].from == from && t.parts[|s.parts|].to == to
    requires rest == Discard(s.def.value.rows, from, to)
    ensures forall k :: 0 <= k < |rest| ==> !Covered(t, rest[k].createdAt)
  {
    var rows := s.def.value.rows;
    DiscardIsOutside(rows, from, to);
    AttachedCoverage(s, t);
    forall k | 0 <= k < |rest|
      ensures !Covered(t, rest[k].createdAt)
    {
      var j :| 0 <= j < |rows| && rows[j] == rest[k];
      assert !Covered(s, DefaultRowsOf(s)[j].createdAt);
    }
  }

  /** The database inside the transaction, between moving the rows and attaching again. */
  function Opened(s: State, name: string, from: nat, to: nat): State
    requires s.def.Some?
  {
    s.(def := None,
       others := s.others[s.def.value.name := Discard(s.def.value.rows, from, to)]
                         [name := Keep(s.def.value.rows, from, to)])
  }

  /** Detaches the backstop and moves the rows of the range to a new table. */
  method MoveRows(db: State, def: string, name: string, from: nat, to: nat) returns (tx: Option<State>, moved: nat)
    requires Inv(db) && !Exists(db, name) && name != def
    ensures tx.Some? <==> db.def.Some? && db.def.value.name == def
    ensures tx.Some? ==> tx.value == Opened(db, name, from, to) && moved == |Keep(db.def.value.rows, from, to)|
  {
    tx, moved := None, 0;
    var s1 := DetachDefault(db, def);
    if s1.None? {
      return;
    }
    var s2 := CreateTable(s1.value, name);
    if s2.None? {
      return;
    }
    var s3 := InsertSelect(s2.value, name, def, from, to);
    if s3.None? {
      return;
    }
    moved := |Keep(s2.value.others[def], from, to)|;
    assert [] + Keep(s2.value.others[def], from, to) == Keep(s2.value.others[def], from, to);
    tx := DeleteRange(s3.value, def, from, to);
    assert tx.value.others == Opened(db, name, from, to).others;
  }

  /** Attaches the new table as a range partition, then the backstop again. */
  method AttachAgain(db: State, opening: State, def: string, name: string, from: nat, to: nat)
    returns (tx: Option<State>)
    requires Inv(db) && !Exists(db, name) && name != def && from < to
    requires db.def.Some? && db.def.value.name == def && opening == Opened(db, name, from, to)
    ensures tx.Some? <==> Free(db.parts, from, to)
    ensures tx.Some? ==> && tx.value.others == db.others
                         && tx.value.parts == db.parts + [Part(name, from, to, true, Keep(db.def.value.rows, from, to))]
                         && tx.value.def == Some(Default(def, Discard(db.def.value.rows, from, to)))
  {
    KeepIsWithin(db.def.value.rows, from, to);
    var s5 := AttachRange(opening, name, from, to);
    if s5.None? {
      return None;
    }
    ghost var rest := s5.value.others[def];
    RestIsUncovered(db, s5.value, from, to, rest);
    tx := AttachDefault(s5.value, def);
    assert tx.value.others == db.others;
  }

  lemma {:induction false} DueOfListing(s: State, listing: seq<Listed>, cutoff: nat)
    requires listing == Listing(s.parts) + if s.def.Some? then [Listed(s.def.value.name, 0, true)] else []
    ensures DueNames(listing, cutoff) == ExpiredNames(s.parts, cutoff)
  {
    DueIsExpired(s.parts, cutoff);
    if s.def.Some? {
      DueOneMore(Listing(s.parts), Listed(s.def.value.name, 0, true), cutoff);
    } else {
      assert listing == Listing(s.parts);
    }
  }

  /** Once a statement is refused, nothing more is done. */
  lemma {:induction false} FailureIsFinal(s: State, sch: Scheme, m: nat, i: nat, n: nat)
    requires i <= n && !EnsureMonths(s, sch, m, i).ok
    ensures EnsureMonths(s, sch, m, n) == EnsureMonths(s, sch, m, i)
  {
    if i < n {
      FailureIsFinal(s, sch, m, i, n - 1);
    }
  }
}
