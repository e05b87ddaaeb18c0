/**
  Ordering the candidates (`Lexer::sortCandidates`): the candidate list is
  sorted by start offset with `cmpPos` by a stable list sort, so candidates
  that start at the same offset keep their discovery order.
 */
module Ordering {
  import opened Candidates

  /** Ascending start offsets. */
  predicate Sorted(cs: seq<Candidate>)
  {
    forall i, j :: 0 <= i < j < |cs| ==> cs[i].start <= cs[j].start
  }

  /** Candidates that start at the same offset appear in registration order. */
  predicate TieOrdered(cs: seq<Candidate>)
  {
    forall i, j :: 0 <= i < j < |cs| && cs[i].start == cs[j].start ==> cs[i].typeIdx <= cs[j].typeIdx
  }

  /** The candidates of `cs` that start at offset `k`, in their order in `cs`. */
  function AtStart(cs: seq<Candidate>, k: nat): seq<Candidate>
  {
    if cs == [] then []
    else (if cs[0].start == k then [cs[0]] else []) + AtStart(cs[1..], k)
  }

  /** A candidate that does not start after the head of a sorted list can be
      put in front of it. */
  lemma SortedCons(x: Candidate, cs: seq<Candidate>)
    requires Sorted(cs)
    requires cs != [] ==> x.start <= cs[0].start
    ensures Sorted([x] + cs)
  {
    var r := [x] + cs;
    forall i, j | 0 <= i < j < |r|
      ensures r[i].start <= r[j].start
    {
      if i == 0 {
        assert r[j] == cs[j - 1];
      } else {
        assert r[i] == cs[i - 1] && r[j] == cs[j - 1];
      }
    }
  }

  /** Places `c` in front of the first candidate that does not start before
      it, so `c` stays ahead of the candidates with the same start. */
  function Insert(c: Candidate, cs: seq<Candidate>): (r: seq<Candidate>)
    requires Sorted(cs)
    ensures Sorted(r)
    ensures multiset(r) == multiset(cs) + multiset{c}
    ensures r[0] == c || (cs != [] && r[0] == cs[0])
  {
    if cs == [] || c.start <= cs[0].start then
      SortedCons(c, cs);
      [c] + cs
    else
      var rest := Insert(c, cs[1..]);
      assert cs == [cs[0]] + cs[1..];
      assert cs[0].start <= rest[0].start;
      SortedCons(cs[0], rest);
      [cs[0]] + rest
  }

  /** `c` goes in front of a list whose head does not start before it. */
  lemma InsertFront(c: Candidate, cs: seq<Candidate>)
    requires Sorted(cs) && (cs == [] || c.start <= cs[0].start)
    ensures Insert(c, cs) == [c] + cs
  {
  }

  /** `c` goes past a head that starts before it. */
  lemma InsertPast(c: Candidate, cs: seq<Candidate>)
    requires Sorted(cs) && cs != [] && cs[0].start < c.start
    ensures Insert(c, cs) == [cs[0]] + Insert(c, cs[1..])
  {
  }

  /** What `Insert` returns holds `c` and the candidates of `cs`, nothing else. */
  lemma InsertMembers(c: Candidate, cs: seq<Candidate>, x: Candidate)
    requires Sorted(cs)
    ensures x in Insert(c, cs) <==> x == c || x in cs
  {
    assert x in Insert(c, cs) <==> x in multiset(Insert(c, cs));
    assert x in cs <==> x in multiset(cs);
  }

  /** The list sort with `cmpPos`: the result is ordered by start and holds
      the same candidates, each as often as before. */
  function SortByStart(cs: seq<Candidate>): (r: seq<Candidate>)
    ensures Sorted(r)
    ensures multiset(r) == multiset(cs)
  {
    if cs == [] then []
    else
      assert cs == [cs[0]] + cs[1..];
      Insert(cs[0], SortByStart(cs[1..]))
  }

  /** The sort neither adds nor loses a candidate. */
  lemma SortByStartMembers(cs: seq<Candidate>)
    ensures forall c :: c in SortByStart(cs) <==> c in cs
  {
    forall c ensures c in SortByStart(cs) <==> c in cs {
      assert c in SortByStart(cs) <==> c in multiset(SortByStart(cs));
      assert c in cs <==> c in multiset(cs);
    }
  }

  lemma {:induction false} InsertAtStart(c: Candidate, cs: seq<Candidate>, k: nat)
    requires Sorted(cs)
    ensures AtStart(Insert(c, cs), k) == (if c.start == k then [c] else []) + AtStart(cs, k)
  {
    if cs == [] || c.start <= cs[0].start {
      assert ([c] + cs)[1..] == cs;
    } else {
      var rest := Insert(c, cs[1..]);
      assert ([cs[0]] + rest)[1..] == rest;
      assert AtStart(Insert(c, cs), k) == (if cs[0].start == k then [cs[0]] else []) + AtStart(rest, k);
      InsertAtStart(c, cs[1..], k);
      assert AtStart(cs, k) == (if cs[0].start == k then [cs[0]] else []) + AtStart(cs[1..], k);
      var tail := AtStart(cs[1..], k);
      if cs[0].start == k {
        assert AtStart(rest, k) == [] + tail == tail;
        assert AtStart(Insert(c, cs), k) == [cs[0]] + tail == AtStart(cs, k);
      } else if c.start == k {
        assert AtStart(cs, k) == [] + tail == tail;
        assert AtStart(Insert(c, cs), k) == [] + ([c] + tail) == [c] + tail;
      } else {
        assert AtStart(cs, k) == [] + tail == tail;
        assert AtStart(Insert(c, cs), k) == [] + ([] + tail) == tail;
      }
    }
  }

  /** Stability: for every offset, the candidates starting there come out of
      the sort in the order they went in. */
  lemma {:induction false} SortStable(cs: seq<Candidate>, k: nat)
    ensures AtStart(SortByStart(cs), k) == AtStart(cs, k)
  {
    if cs != [] {
      SortStable(cs[1..], k);
      InsertAtStart(cs[0], SortByStart(cs[1..]), k);
    }
  }

  /** A candidate that precedes, in registration order, every candidate of
      `cs` with its start can be put in front of `cs`. */
  lemma TieCons(x: Candidate, cs: seq<Candidate>)
    requires TieOrdered(cs)
    requires forall y :: y in cs && y.start == x.start ==> x.typeIdx <= y.typeIdx
    ensures TieOrdered([x] + cs)
  {
    var r := [x] + cs;
    forall i, j | 0 <= i < j < |r| && r[i].start == r[j].start
      ensures r[i].typeIdx <= r[j].typeIdx
    {
      if i == 0 {
        assert r[j] == cs[j - 1] && r[j] in cs;
      } else {
        assert r[i] == cs[i - 1] && r[j] == cs[j - 1];
      }
    }
  }

  lemma {:induction false} InsertTieOrdered(c: Candidate, cs: seq<Candidate>)
    requires Sorted(cs) && TieOrdered(cs)
    requires forall x :: x in cs && x.start == c.start ==> c.typeIdx <= x.typeIdx
    ensures TieOrdered(Insert(c, cs))
  {
    if cs == [] || c.start <= cs[0].start {
      TieCons(c, cs);
    } else {
      var tail := cs[1..];
      var rest := Insert(c, tail);
      assert cs == [cs[0]] + tail;
      assert TieOrdered(tail) by {
        forall i, j | 0 <= i < j < |tail| && tail[i].start == tail[j].start
          ensures tail[i].typeIdx <= tail[j].typeIdx
        {
          assert tail[i] == cs[i + 1] && tail[j] == cs[j + 1];
        }
      }
      InsertTieOrdered(c, tail);
      forall y | y in rest && y.start == cs[0].start
        ensures cs[0].typeIdx <= y.typeIdx
      {
        InsertMembers(c, tail, y);
        var m :| 0 <= m < |tail| && tail[m] == y;
        assert cs[m + 1] == y;
      }
      TieCons(cs[0], rest);
    }
  }

  /** Because the sort is stable, sorting a list grouped by registration slot
      (as discovery produces it) leaves candidates with equal starts in
      registration order: the earlier-registered type comes first. */
  lemma {:induction false} SortKeepsRegistrationOrder(cs: seq<Candidate>)
    requires Grouped(cs)
    ensures TieOrdered(SortByStart(cs))
  {
    if cs != [] {
      assert cs == [cs[0]] + cs[1..];
      assert Grouped(cs[1..]);
      SortKeepsRegistrationOrder(cs[1..]);
      var sorted := SortByStart(cs[1..]);
      forall x | x in sorted && x.start == cs[0].start
        ensures cs[0].typeIdx <= x.typeIdx
      {
        assert x in multiset(sorted);
        assert x in multiset(cs[1..]);
        var m :| 0 <= m < |cs[1..]| && cs[1..][m] == x;
        assert cs[m + 1] == x;
      }
      InsertTieOrdered(cs[0], sorted);
    }
  }
}
