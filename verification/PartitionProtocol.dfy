/** What rolling forward, taking over and retention do to a partitioned table, call by call and over
    every run of them interleaved with writes and with partitions created by hand. */
module PartitionProtocol {
  import opened Common
  import opened Partitions

  // ---- Rolling forward ------------------------------------------------------------------------

  /** The partition the manager creates for a month. */
  function MonthPart(sch: Scheme, m: nat): Part { Part(sch.name(m), sch.start(m), sch.start(m + 1), true, []) }

  /** `p` was created for one of the first `n` months from `m`, whose name was free. */
  ghost predicate IsNew(s: State, p: Part, sch: Scheme, m: nat, n: nat) {
    exists k: nat :: m <= k < m + n && p == MonthPart(sch, k) && !Exists(s, sch.name(k))
  }

  ghost predicate Rolled(s: State, t: State, sch: Scheme, m: nat, n: nat) {
    && t.def == s.def && t.others == s.others && s.parts <= t.parts
    && forall i :: |s.parts| <= i < |t.parts| ==> IsNew(s, t.parts[i], sch, m, n)
  }

  /** Creating months leaves the name of any other month as free or taken as it was. */
  lemma RolledNames(s: State, t: State, sch: Scheme, m: nat, n: nat, j: nat)
    requires sch.Valid() && Rolled(s, t, sch, m, n) && j >= m + n
    ensures Exists(t, sch.name(j)) <==> Exists(s, sch.name(j))
  {
  }

  /** Whether the month is already named, or could be created. */
  predicate Ready(s: State, sch: Scheme, m: nat) {
    Exists(s, sch.name(m)) || CanAttach(s, sch.start(m), sch.start(m + 1))
  }

  function MissingNames(s: State, sch: Scheme, m: nat, n: nat): seq<string> {
    if n == 0 then []
    else MissingNames(s, sch, m, n - 1) + if Exists(s, sch.name(m + n - 1)) then [] else [sch.name(m + n - 1)]
  }

  ghost predicate AllReady(s: State, sch: Scheme, m: nat, n: nat) {
    forall k: nat :: m <= k < m + n ==> Ready(s, sch, k)
  }

  lemma AllReadyMore(s: State, sch: Scheme, m: nat, n: nat)
    ensures AllReady(s, sch, m, n + 1) <==> AllReady(s, sch, m, n) && Ready(s, sch, m + n)
  {
  }

  lemma RoundKeeps(s: State, sch: Scheme, m: nat, n: nat)
    requires Inv(EnsureMonths(s, sch, m, n).db)
    ensures Inv(EnsureMonths(s, sch, m, n + 1).db)
  {
  }

  lemma {:induction false} EnsureMonthsKeeps(s: State, sch: Scheme, m: nat, n: nat)
    requires Inv(s)
    ensures Inv(EnsureMonths(s, sch, m, n).db)
  {
    if n > 0 {
      EnsureMonthsKeeps(s, sch, m, n - 1);
      RoundKeeps(s, sch, m, n - 1);
    }
  }

  /** The rounds only ever append months whose names were free, and they succeed exactly when every
      month was ready beforehand. */
  lemma {:induction false} EnsureMonthsOutcome(s: State, sch: Scheme, m: nat, n: nat)
    requires sch.Valid()
    ensures Rolled(s, EnsureMonths(s, sch, m, n).db, sch, m, n)
    ensures EnsureMonths(s, sch, m, n).ok == AllReady(s, sch, m, n)
  {
    if n > 0 {
      EnsureMonthsOutcome(s, sch, m, n - 1);
      NextRound(s, EnsureMonths(s, sch, m, n - 1), sch, m, n - 1);
      AllReadyMore(s, sch, m, n - 1);
    }
  }

  /** A success created exactly the missing months, in order. */
  lemma {:induction false} EnsureMonthsNames(s: State, sch: Scheme, m: nat, n: nat)
    requires sch.Valid() && EnsureMonths(s, sch, m, n).ok
    ensures EnsureMonths(s, sch, m, n).names == MissingNames(s, sch, m, n)
  {
    if n > 0 {
      var o := EnsureMonths(s, sch, m, n - 1);
      assert o.ok;
      EnsureMonthsNames(s, sch, m, n - 1);
      EnsureMonthsOutcome(s, sch, m, n - 1);
      RolledNames(s, o.db, sch, m, n - 1, m + n - 1);
    }
  }

  lemma NextRound(s: State, o: Outcome, sch: Scheme, m: nat, n: nat)
    requires sch.Valid() && Rolled(s, o.db, sch, m, n)
    ensures Rolled(s, EnsureMonth(o, sch, m + n).db, sch, m, n + 1)
    ensures EnsureMonth(o, sch, m + n).ok <==> o.ok && Ready(s, sch, m + n)
  {
  }

  /** Providing the backstop changes no month. */
  lemma BackstopChangesNoMonth(s: State, sch: Scheme)
    requires sch.Valid() && Inv(s) && EnsureDefault(s, sch).Some?
    ensures var t := EnsureDefault(s, sch).value;
            && Inv(t) && t.parts == s.parts && t.others == s.others && DefaultRowsOf(t) == DefaultRowsOf(s)
            && forall k: nat :: (Exists(t, sch.name(k)) <==> Exists(s, sch.name(k)))
                && (Ready(t, sch, k) <==> Ready(s, sch, k))
  {
  }

  lemma {:induction false} SameMissing(s: State, t: State, sch: Scheme, m: nat, n: nat)
    requires forall k: nat :: Exists(t, sch.name(k)) <==> Exists(s, sch.name(k))
    ensures MissingNames(t, sch, m, n) == MissingNames(s, sch, m, n)
  {
    if n > 0 {
      SameMissing(s, t, sch, m, n - 1);
    }
  }

  predicate BackstopReady(s: State, sch: Scheme) { Exists(s, sch.def) || s.def.None? }

  /** A call succeeds exactly when the backstop can be provided and every month of the window is
      named already or free of other ranges and of stranded rows; it reports what was missing. */
  lemma EnsureSucceedsIff(s: State, sch: Scheme, now: nat, ahead: nat, gives: nat)
    requires sch.Valid() && Inv(s)
    ensures var o := Ensured(s, sch, now, ahead, gives);
            && (o.ok <==> gives > ahead && BackstopReady(s, sch) && AllReady(s, sch, MonthOf(sch, now), ahead + 1))
            && (o.ok ==> o.names == MissingNames(s, sch, MonthOf(sch, now), ahead + 1))
  {
    if BackstopReady(s, sch) {
      var t, m, n := EnsureDefault(s, sch).value, MonthOf(sch, now), Min(gives, ahead + 1);
      BackstopChangesNoMonth(s, sch);
      EnsureMonthsOutcome(t, sch, m, n);
      if EnsureMonths(t, sch, m, n).ok {
        EnsureMonthsNames(t, sch, m, n);
      }
      assert AllReady(t, sch, m, n) <==> AllReady(s, sch, m, n);
      SameMissing(s, t, sch, m, n);
    }
  }

  lemma RoundCreates(o: Outcome, sch: Scheme, k: nat)
    requires EnsureMonth(o, sch, k).ok
    ensures o.ok && o.db.parts <= EnsureMonth(o, sch, k).db.parts
    ensures !Exists(o.db, sch.name(k)) ==> MonthPart(sch, k) in EnsureMonth(o, sch, k).db.parts
  {
  }

  lemma {:induction false} MissingAreCreated(s: State, sch: Scheme, m: nat, n: nat, k: nat)
    requires sch.Valid() && EnsureMonths(s, sch, m, n).ok
    requires m <= k < m + n && !Exists(s, sch.name(k))
    ensures MonthPart(sch, k) in EnsureMonths(s, sch, m, n).db.parts
  {
    var o := EnsureMonths(s, sch, m, n - 1);
    RoundCreates(o, sch, m + n - 1);
    if k < m + n - 1 {
      MissingAreCreated(s, sch, m, n - 1, k);
    } else {
      EnsureMonthsOutcome(s, sch, m, n - 1);
      RolledNames(s, o.db, sch, m, n - 1, k);
    }
  }

  /** No instant of the stretch is left to the backstop. */
  ghost predicate Tiled(s: State, from: nat, to: nat) { forall t: nat :: from <= t < to ==> Covered(s, t) }

  /** Every month of the window whose name is taken is really covered. */
  ghost predicate NamesAreHonest(s: State, sch: Scheme, m: nat, n: nat) {
    forall k: nat :: m <= k < m + n && Exists(s, sch.name(k)) ==> Tiled(s, sch.start(k), sch.start(k + 1))
  }

  lemma RolledCoversMore(s: State, t: State, x: nat)
    requires s.parts <= t.parts && Covered(s, x)
    ensures Covered(t, x)
  {
  }

  /** An instant of a month whose name was taken is covered afterwards only if it was before. */
  lemma RolledCoversNoOther(s: State, t: State, sch: Scheme, m: nat, n: nat, k: nat, x: nat)
    requires sch.Valid() && Rolled(s, t, sch, m, n) && Exists(s, sch.name(k)) && sch.InMonth(x, k) && Covered(t, x)
    ensures Covered(s, x)
  {
  }

  lemma WindowMonth(sch: Scheme, m: nat, n: nat, x: nat)
    requires sch.Valid() && sch.start(m) <= x < sch.start(m + n)
    ensures m <= MonthOf(sch, x) < m + n
  {
  }

  /** Every month of the window whose name was free has its partition now. */
  ghost predicate AllCreated(s: State, t: State, sch: Scheme, m: nat, n: nat) {
    forall k: nat :: m <= k < m + n && !Exists(s, sch.name(k)) ==> MonthPart(sch, k) in t.parts
  }

  lemma RolledTilesIff(s: State, t: State, sch: Scheme, m: nat, n: nat)
    requires sch.Valid() && Rolled(s, t, sch, m, n) && AllCreated(s, t, sch, m, n)
    ensures Tiled(t, sch.start(m), sch.start(m + n)) <==> NamesAreHonest(s, sch, m, n)
  {
    if NamesAreHonest(s, sch, m, n) {
      forall x: nat | sch.start(m) <= x < sch.start(m + n)
        ensures Covered(t, x)
      {
        HonestMonthIsCovered(s, t, sch, m, n, x);
      }
    }
    if Tiled(t, sch.start(m), sch.start(m + n)) {
      forall k: nat, x: nat | m <= k < m + n && Exists(s, sch.name(k)) && sch.start(k) <= x < sch.start(k + 1)
        ensures Covered(s, x)
      {
        assert sch.start(m) <= sch.start(k) && sch.start(k + 1) <= sch.start(m + n);
        RolledCoversNoOther(s, t, sch, m, n, k, x);
      }
    }
  }

  lemma HonestMonthIsCovered(s: State, t: State, sch: Scheme, m: nat, n: nat, x: nat)
    requires sch.Valid() && Rolled(s, t, sch, m, n) && AllCreated(s, t, sch, m, n) && NamesAreHonest(s, sch, m, n)
    requires sch.start(m) <= x < sch.start(m + n)
    ensures Covered(t, x)
  {
    var k := MonthOf(sch, x);
    WindowMonth(sch, m, n, x);
    if Exists(s, sch.name(k)) {
      RolledCoversMore(s, t, x);
    } else {
      var i :| 0 <= i < |t.parts| && t.parts[i] == MonthPart(sch, k);
      assert Covers(t.parts[i], x);
    }
  }

  /** What a successful call does to the months, once the backstop is provided. */
  lemma EnsuredShape(s: State, sch: Scheme, now: nat, ahead: nat, gives: nat)
    requires sch.Valid() && Ensured(s, sch, now, ahead, gives).ok
    ensures EnsureDefault(s, sch).Some?
    ensures var t, u, m := EnsureDefault(s, sch).value, Ensured(s, sch, now, ahead, gives).db, MonthOf(sch, now);
            Rolled(t, u, sch, m, ahead + 1) && AllCreated(t, u, sch, m, ahead + 1)
  {
    var t, m, n := EnsureDefault(s, sch).value, MonthOf(sch, now), ahead + 1;
    EnsureMonthsOutcome(t, sch, m, n);
    forall k: nat | m <= k < m + n && !Exists(t, sch.name(k))
      ensures MonthPart(sch, k) in EnsureMonths(t, sch, m, n).db.parts
    {
      MissingAreCreated(t, sch, m, n, k);
    }
  }

  lemma SameHonesty(s: State, t: State, sch: Scheme, m: nat, n: nat)
    requires t.parts == s.parts && forall k: nat :: Exists(t, sch.name(k)) <==> Exists(s, sch.name(k))
    ensures NamesAreHonest(t, sch, m, n) <==> NamesAreHonest(s, sch, m, n)
  {
    assert forall x: nat :: Covered(t, x) <==> Covered(s, x) by { SameCoverage(s, t); }
    assert forall from: nat, to: nat :: Tiled(t, from, to) <==> Tiled(s, from, to);
  }

  /** After a successful call the current month through `ahead` further ones are covered without a
      gap if and only if every one of them whose name was taken was covered before the call. */
  lemma EnsureTilesIff(s: State, sch: Scheme, now: nat, ahead: nat, gives: nat)
    requires sch.Valid() && Inv(s) && Ensured(s, sch, now, ahead, gives).ok
    ensures var m := MonthOf(sch, now);
            Tiled(Ensured(s, sch, now, ahead, gives).db, sch.start(m), sch.start(m + ahead + 1))
            <==> NamesAreHonest(s, sch, m, ahead + 1)
  {
    var t, m := EnsureDefault(s, sch).value, MonthOf(sch, now);
    BackstopChangesNoMonth(s, sch);
    EnsuredShape(s, sch, now, ahead, gives);
    RolledTilesIff(t, Ensured(s, sch, now, ahead, gives).db, sch, m, ahead + 1);
    SameHonesty(s, t, sch, m, ahead + 1);
  }

  /** After a successful call the backstop is attached, and so no write is ever rejected, unless its
      name was taken by some other relation while no backstop was attached. */
  lemma BackstopAttachedIff(s: State, sch: Scheme, now: nat, ahead: nat, gives: nat)
    requires sch.Valid() && Ensured(s, sch, now, ahead, gives).ok
    ensures var o := Ensured(s, sch, now, ahead, gives);
            && (o.db.def.Some? <==> s.def.Some? || !Exists(s, sch.def))
            && (o.db.def.Some? ==> forall r :: Insert(o.db, r).Some?)
  {
    EnsuredShape(s, sch, now, ahead, gives);
  }

  /** A relation that merely bears a month's name is taken for its partition: the call succeeds and
      the current month is left to the backstop. */
  lemma NameAloneLeavesAGap(sch: Scheme, now: nat) returns (s: State)
    requires sch.Valid()
    ensures Inv(s) && Ensured(s, sch, now, 1, 2).ok && !Covered(Ensured(s, sch, now, 1, 2).db, now)
  {
    var m := MonthOf(sch, now);
    s := State([], None, map[sch.name(m) := []]);
    EnsureSucceedsIff(s, sch, now, 1, 2);
    assert forall k: nat :: k != m ==> Ready(s, sch, k) by {
      assert forall k: nat :: sch.start(k) < sch.start(k + 1);
    }
    BackstopChangesNoMonth(s, sch);
    var t := EnsureDefault(s, sch).value;
    EnsureMonthsOutcome(t, sch, m, 2);
    if Covered(Ensured(s, sch, now, 1, 2).db, now) {
      RolledCoversNoOther(t, Ensured(s, sch, now, 1, 2).db, sch, m, 2, m, now);
    }
  }

  // ---- Taking over and retention -----------------------------------------------------------------

  /** A month can be taken over exactly if its name is free, the backstop is attached under its own name,
      and no instant of the month has a partition yet. */
  lemma AdoptableIff(s: State, sch: Scheme, m: nat)
    requires sch.Valid() && Inv(s)
    ensures Adoptable(s, sch, m)
            <==> && !Exists(s, sch.name(m)) && s.def.Some? && s.def.value.name == sch.def
                 && forall t: nat :: sch.InMonth(t, m) ==> !Covered(s, t)
  {
    var from, to := sch.start(m), sch.start(m + 1);
    forall i | 0 <= i < |s.parts|
      ensures Overlaps(s.parts[i], from, to) <==> exists t: nat :: Covers(s.parts[i], t) && Within(t, from, to)
    {
      OverlapIsASharedInstant(s.parts[i], from, to);
    }
    if Adoptable(s, sch, m) {
      assert forall t: nat :: sch.InMonth(t, m) ==> Within(t, from, to);
    } else if forall t: nat :: sch.InMonth(t, m) ==> !Covered(s, t) {
      if i :| 0 <= i < |s.parts| && Overlaps(s.parts[i], from, to) {
        var t: nat :| Covers(s.parts[i], t) && Within(t, from, to);
        assert sch.InMonth(t, m);
        assert false;
      }
    }
  }

  /** A month taken over is dropped in its turn: when its end is past, and with the others. */
  lemma AdoptedExpires(s: State, sch: Scheme, m: nat, cutoff: nat)
    requires Adoptable(s, sch, m)
    ensures ExpiredNames(Adopted(s, sch, m).parts, cutoff)
            == ExpiredNames(s.parts, cutoff) + if sch.start(m + 1) <= cutoff then [sch.name(m)] else []
  {
    var t := Adopted(s, sch, m);
    ExpiredNamesOneMore(s.parts, t.parts[|s.parts|], cutoff);
  }

  /** Taking over a month keeps every row, empties the backstop of that month, and covers it. */
  lemma AdoptEffect(s: State, sch: Scheme, m: nat)
    requires sch.Valid() && Inv(s) && Adoptable(s, sch, m)
    ensures var t := Adopted(s, sch, m);
            && Inv(t) && Stored(t) == Stored(s)
            && NoneWithin(DefaultRowsOf(t), sch.start(m), sch.start(m + 1))
            && Tiled(t, sch.start(m), sch.start(m + 1))
  {
    var t, from, to, rows := Adopted(s, sch, m), sch.start(m), sch.start(m + 1), s.def.value.rows;
    AdoptKeeps(s, sch, m);
    KeepAndDiscard(rows, from, to);
    DiscardIsOutside(rows, from, to);
    PartRowsOneMore(s.parts, t.parts[|s.parts|]);
    assert DefaultRowsOf(t) == Discard(rows, from, to);
    AttachedCoverage(s, t);
  }

  lemma AdoptKeeps(s: State, sch: Scheme, m: nat)
    requires sch.Valid() && Inv(s) && Adoptable(s, sch, m)
    ensures Inv(Adopted(s, sch, m))
  {
    var t, from, to, rows := Adopted(s, sch, m), sch.start(m), sch.start(m + 1), s.def.value.rows;
    KeepIsWithin(rows, from, to);
    RestIsUncovered(s, t, from, to, Discard(rows, from, to));
    assert DefaultRowsOf(t) == Discard(rows, from, to);
  }

  /** Some or all of the partitions that are due. */
  predicate AllExpired(s: State, cutoff: nat, names: seq<string>) {
    forall i :: 0 <= i < |names| ==> names[i] in ExpiredNames(s.parts, cutoff)
  }

  function WithoutNamed(s: State, names: seq<string>): State { s.(parts := Without(s.parts, names)) }

  /** Dropping loses no row dated from the cutoff on, and leaves the backstop alone, whichever of the
      expired partitions a call gets to before it is cut short. */
  lemma DropKeepsTheRest(s: State, cutoff: nat, names: seq<string>, r: Row)
    requires Inv(s) && AllExpired(s, cutoff, names)
    ensures Inv(WithoutNamed(s, names)) && WithoutNamed(s, names).def == s.def
    ensures Stored(WithoutNamed(s, names))[r] <= Stored(s)[r]
    ensures r.createdAt >= cutoff ==> Stored(WithoutNamed(s, names))[r] == Stored(s)[r]
  {
    WithoutKeeps(s, names);
    forall p | p in s.parts
      ensures Fits(p) && (p.name in names ==> p.to <= cutoff)
    {
      if p.name in names {
        NamedOnce(s, p, cutoff);
      }
    }
    WithoutRows(s.parts, names, cutoff, r);
  }

  /** Names are unique, so a name that is due is the name of an expired partition only. */
  lemma NamedOnce(s: State, p: Part, cutoff: nat)
    requires Inv(s) && p in s.parts && p.name in ExpiredNames(s.parts, cutoff)
    ensures Expired(p, cutoff)
  {
    ExpiredNamesMembers(s.parts, cutoff);
    var q :| q in s.parts && q.name == p.name && Expired(q, cutoff);
    var i :| 0 <= i < |s.parts| && s.parts[i] == p;
    var j :| 0 <= j < |s.parts| && s.parts[j] == q;
    assert i == j;
  }

  /** What a call does is such a drop. */
  lemma CallDropsExpired(s: State, cutoff: nat, n: nat) returns (names: seq<string>)
    ensures AllExpired(s, cutoff, names) && Dropped(s, cutoff, n) == WithoutNamed(s, names)
  {
    var all := ExpiredNames(s.parts, cutoff);
    names := all[..Min(n, |all|)];
  }

  /** One that reaches all of them, in any order, drops exactly the expired partitions. */
  lemma DropIsComplete(s: State, cutoff: nat, names: seq<string>, p: Part)
    requires Inv(s) && AllExpired(s, cutoff, names)
    requires forall name :: name in ExpiredNames(s.parts, cutoff) ==> name in names
    ensures p in WithoutNamed(s, names).parts <==> p in s.parts && !Expired(p, cutoff)
  {
    WithoutMembers(s.parts, names);
    ExpiredNamesMembers(s.parts, cutoff);
    if p in s.parts && p.name in names {
      NamedOnce(s, p, cutoff);
    }
  }

  // ---- Runs ------------------------------------------------------------------------------------------

  /** What can happen to the table: a write, a call of the manager, which may be cut short, a
      partition created by hand, or an unrelated table. A drop may take any of what is due. By hand
      nobody uses the name of the backstop, which would make taking a month over detach that range. */
  datatype Step =
    | Write(r: Row)
    | EnsureCall(now: nat, ahead: nat, gives: nat)
    | AdoptCall(month: nat)
    | DropCall(cutoff: nat, names: seq<string>)
    | ByHand(name: string, from: nat, to: nat, readable: bool)
    | OtherTable(name: string)

  function Or(t: Option<State>, s: State): State { if t.Some? then t.value else s }

  function After(s: State, step: Step, sch: Scheme): State
    requires sch.Valid()
  {
    match step
    case Write(r) => Or(Insert(s, r), s)
    case EnsureCall(now, ahead, gives) => Ensured(s, sch, now, ahead, gives).db
    case AdoptCall(month) =>
      var m := MonthOf(sch, month); if Adoptable(s, sch, m) then Adopted(s, sch, m) else s
    case DropCall(cutoff, names) => if AllExpired(s, cutoff, names) then WithoutNamed(s, names) else s
    case ByHand(name, from, to, readable) =>
      if name == sch.def then s else Or(CreateRange(s, name, from, to, readable), s)
    case OtherTable(name) => Or(CreateTable(s, name), s)
  }

  ghost predicate StepAt(run: seq<State>, steps: seq<Step>, sch: Scheme, i: nat)
    requires sch.Valid() && i < |steps| < |run|
  {
    run[i + 1] == After(run[i], steps[i], sch)
  }

  ghost predicate Run(run: seq<State>, steps: seq<Step>, sch: Scheme)
    requires sch.Valid()
  {
    && |run| == |steps| + 1 && Inv(run[0])
    && forall i: nat :: i < |steps| ==> StepAt(run, steps, sch, i)
  }

  /** How often a step puts the row into the table. */
  function Accepts(s: State, step: Step, r: Row): nat {
    if step == Write(r) && Insert(s, r).Some? then 1 else 0
  }

  lemma EnsureKeeps(s: State, sch: Scheme, now: nat, ahead: nat, gives: nat)
    requires sch.Valid() && Inv(s)
    ensures Inv(Ensured(s, sch, now, ahead, gives).db) && Stored(Ensured(s, sch, now, ahead, gives).db) == Stored(s)
  {
    if EnsureDefault(s, sch).Some? {
      var t, m, n := EnsureDefault(s, sch).value, MonthOf(sch, now), Min(gives, ahead + 1);
      BackstopChangesNoMonth(s, sch);
      EnsureMonthsKeeps(t, sch, m, n);
      EnsureMonthsOutcome(t, sch, m, n);
      RolledRows(t, EnsureMonths(t, sch, m, n).db, sch, m, n);
    }
  }

  lemma {:induction false} EmptyRows(parts: seq<Part>)
    requires forall i :: 0 <= i < |parts| ==> parts[i].rows == []
    ensures PartRows(parts) == multiset{}
  {
    if parts != [] {
      EmptyRows(parts[1..]);
    }
  }

  lemma RolledRows(s: State, t: State, sch: Scheme, m: nat, n: nat)
    requires Rolled(s, t, sch, m, n)
    ensures Stored(t) == Stored(s)
  {
    var added := t.parts[|s.parts|..];
    assert t.parts == s.parts + added;
    forall i | 0 <= i < |added|
      ensures added[i].rows == []
    {
      assert IsNew(s, t.parts[|s.parts| + i], sch, m, n);
    }
    EmptyRows(added);
    PartRowsConcat(s.parts, added);
  }

  lemma ByHandKeeps(s: State, name: string, from: nat, to: nat, readable: bool)
    requires Inv(s)
    ensures var t := Or(CreateRange(s, name, from, to, readable), s); Inv(t) && Stored(t) == Stored(s)
  {
    var t := CreateRange(s, name, from, to, readable);
    if t.Some? {
      CreateRangeKeeps(s, name, from, to, readable);
      PartRowsOneMore(s.parts, Part(name, from, to, readable, []));
    }
  }

  lemma OtherTableKeeps(s: State, name: string)
    requires Inv(s)
    ensures var t := Or(CreateTable(s, name), s); Inv(t) && Stored(t) == Stored(s)
  {
    var t := Or(CreateTable(s, name), s);
    assert t.parts == s.parts && DefaultRowsOf(t) == DefaultRowsOf(s);
    SameCoverage(s, t);
  }

  lemma WriteConserves(s: State, w: Row, r: Row)
    ensures Stored(Or(Insert(s, w), s))[r] == Stored(s)[r] + Accepts(s, Write(w), r)
  {
    if Insert(s, w).Some? {
      InsertStores(s, w, r);
    }
  }

  /** Every step keeps the table sound. */
  lemma StepKeeps(s: State, step: Step, sch: Scheme)
    requires sch.Valid() && Inv(s)
    ensures Inv(After(s, step, sch))
  {
    match step
    case Write(w) =>
      if Insert(s, w).Some? {
        InsertKeeps(s, w);
      }
    case EnsureCall(now, ahead, gives) => EnsureKeeps(s, sch, now, ahead, gives);
    case AdoptCall(month) =>
      if Adoptable(s, sch, MonthOf(sch, month)) {
        AdoptEffect(s, sch, MonthOf(sch, month));
      }
    case DropCall(cutoff, names) =>
      if AllExpired(s, cutoff, names) {
        DropKeepsTheRest(s, cutoff, names, Row(0, 0));
      }
    case ByHand(name, from, to, readable) => ByHandKeeps(s, name, from, to, readable);
    case OtherTable(name) => OtherTableKeeps(s, name);
  }

  /** A row is lost only to a drop with a later cutoff, and gained only by writing it. */
  lemma StepConserves(s: State, step: Step, sch: Scheme, r: Row)
    requires sch.Valid() && Inv(s) && !(step.DropCall? && step.cutoff > r.createdAt)
    ensures Stored(After(s, step, sch))[r] == Stored(s)[r] + Accepts(s, step, r)
  {
    match step
    case Write(w) => WriteConserves(s, w, r);
    case EnsureCall(now, ahead, gives) => EnsureKeeps(s, sch, now, ahead, gives);
    case AdoptCall(month) =>
      if Adoptable(s, sch, MonthOf(sch, month)) {
        AdoptEffect(s, sch, MonthOf(sch, month));
      }
    case DropCall(cutoff, names) =>
      if AllExpired(s, cutoff, names) {
        DropKeepsTheRest(s, cutoff, names, r);
      }
    case ByHand(name, from, to, readable) => ByHandKeeps(s, name, from, to, readable);
    case OtherTable(name) => OtherTableKeeps(s, name);
  }

  /** Over every run: ranges stay disjoint, and the backstop holds a row only where no range does. */
  lemma {:induction false} AlwaysSound(run: seq<State>, steps: seq<Step>, sch: Scheme, i: nat)
    requires sch.Valid() && Run(run, steps, sch) && i < |run|
    ensures Inv(run[i])
  {
    if i > 0 {
      AlwaysSound(run, steps, sch, i - 1);
      assert StepAt(run, steps, sch, i - 1);
      StepKeeps(run[i - 1], steps[i - 1], sch);
    }
  }

  function Writes(run: seq<State>, steps: seq<Step>, r: Row, i: nat, j: nat): nat
    requires i <= j <= |steps| < |run|
    decreases j - i
  {
    if i == j then 0 else Writes(run, steps, r, i, j - 1) + Accepts(run[j - 1], steps[j - 1], r)
  }

  lemma RunConserves(run: seq<State>, steps: seq<Step>, sch: Scheme, r: Row, i: nat)
    requires sch.Valid() && Run(run, steps, sch) && i < |steps|
        && !(steps[i].DropCall? && steps[i].cutoff > r.createdAt)
    ensures Stored(run[i + 1])[r] == Stored(run[i])[r] + Accepts(run[i], steps[i], r)
  {
    AlwaysSound(run, steps, sch, i);
    assert StepAt(run, steps, sch, i);
    StepConserves(run[i], steps[i], sch, r);
  }

  /** Over every stretch of a run with no drop past its date, a row is stored as often as it was
      at the start plus as often as it was accepted since. */
  lemma {:induction false} RowsAreConserved(run: seq<State>, steps: seq<Step>, sch: Scheme, r: Row, i: nat, j: nat)
    requires sch.Valid() && Run(run, steps, sch) && i <= j < |run|
    requires forall k :: i <= k < j ==> !(steps[k].DropCall? && steps[k].cutoff > r.createdAt)
    ensures Stored(run[j])[r] == Stored(run[i])[r] + Writes(run, steps, r, i, j)
    decreases j - i
  {
    if i < j {
      RowsAreConserved(run, steps, sch, r, i, j - 1);
      RunConserves(run, steps, sch, r, j - 1);
    }
  }
}
