/** Vocabulary shared by every component: optional values, results and instants. */
module Common {

  datatype Option<+T> = None | Some(value: T)

  datatype Result<+T> = Ok(value: T) | Err(message: string)

  /** An instant or a duration in nanoseconds; instants count from the Unix epoch. */
  type Time = int

  const SECOND: Time := 1_000_000_000

  function Min(a: int, b: int): int { if a <= b then a else b }

  function Max(a: int, b: int): int { if a >= b then a else b }

  /** The members of a list, in any order and however often they occur. */
  function Members<T>(xs: seq<T>): set<T> { set x | x in xs }

  lemma MembersOneMore<T>(xs: seq<T>, x: T)
    ensures Members(xs + [x]) == Members(xs) + {x}
  {
  }

  lemma SomeMember<T>(xs: seq<T>)
    ensures xs != [] ==> Members(xs) != {}
  {
    if xs != [] {
      assert xs[0] in Members(xs);
    }
  }

  lemma EmptyHasNone<T(!new)>(s: set<T>)
    requires s == {}
    ensures forall x :: x !in s
  {
  }

  lemma SameMembers<T(!new)>(a: set<T>, b: set<T>)
    requires forall x :: x in a <==> x in b
    ensures a == b
  {
  }

  lemma NoMembers<T(!new)>(s: set<T>)
    requires forall x :: x !in s
    ensures s == {}
  {
  }

  lemma PickOne<T>(s: set<T>) returns (x: T)
    requires s != {}
    ensures x in s
  {
    x :| x in s;
  }

  /** A number above all of a set: an id that is not taken. */
  lemma {:induction false} Above(s: set<int>) returns (b: int)
    ensures forall x :: x in s ==> x < b
    decreases |s|
  {
    b := 0;
    if s != {} {
      var x := PickOne(s);
      b := Above(s - {x});
      b := Max(b, x + 1);
      assert forall y :: y in s ==> y == x || y in s - {x};
    } else {
      EmptyHasNone(s);
      assert forall y: int :: y !in s;
    }
  }

  /** Any member of a nonempty set. */
  method Pick<T>(s: set<T>) returns (x: T)
    requires s != {}
    ensures x in s
  {
    x :| x in s;
  }

  /** A table scan: lists a set in some order that the caller cannot rely on. */
  method Scan<T>(s: set<T>) returns (rows: seq<T>)
    ensures Members(rows) == s && |rows| == |s|
    ensures forall i, j :: 0 <= i < j < |rows| ==> rows[i] != rows[j]
  {
    rows := [];
    var rest := s;
    while rest != {}
      invariant rest <= s && Members(rows) == s - rest
      invariant |rows| == |s| - |rest|
      invariant forall i, j :: 0 <= i < j < |rows| ==> rows[i] != rows[j]
      decreases |rest|
    {
      var x := Pick(rest);
      MembersOneMore(rows, x);
      assert x !in Members(rows);
      rows := rows + [x];
      rest := rest - {x};
    }
  }
}
