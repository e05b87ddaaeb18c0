/**
  Overlap resolution (`Lexer::filterCandidates`): a sweep over adjacent pairs
  of the sorted candidate list. A pair that touches exactly moves the sweep
  on; a pair with a gap between them is reported through `handleUnmatched`,
  which aborts; an overlapping pair loses one of its two candidates (the
  second when it is not strictly longer, otherwise the first) and the sweep
  looks at the new pair without moving.
 */
module Filtering {
  import opened Wrappers
  import opened Candidates
  import opened Ordering

  /** Why a call to `lex` fails. */
  datatype LexError =
    | Unmatched(pos: nat, len: nat, text: string)  // `handleUnmatched`: a gap between two candidates
    | SubstrOutOfRange(pos: nat)                    // `substr` thrown on an offset past the end of the text
    | BadPattern(pat: string)                       // a registered pattern that does not compile

  /** `handleUnmatched(s, pos, len)`: the error it raises carries the offset,
      the length and `s.substr(pos, len)`, which is the slice of `s` from
      `pos` cut at the end of `s`; an offset past the end of `s` makes
      `substr` itself throw. */
  function HandleUnmatched(s: string, pos: nat, len: nat): (e: LexError)
    ensures pos <= |s| ==> e.Unmatched? && e.pos == pos && e.len == len
    ensures pos <= |s| ==> |e.text| <= len && e.text <= s[pos..]
    ensures pos <= |s| && |e.text| < len ==> pos + |e.text| == |s|
    ensures pos > |s| ==> e == SubstrOutOfRange(pos)
  {
    if pos > |s| then SubstrOutOfRange(pos)
    else Unmatched(pos, len, s[pos..if pos + len <= |s| then pos + len else |s|])
  }

  /** The state the sweep leaves behind: the candidate list as it stands, and
      the error that stopped it, if any. */
  datatype Swept = Swept(kept: seq<Candidate>, error: Option<LexError>)

  /** The loop of `filterCandidates` from the pair `(cs[i], cs[i+1])` on;
      `i` is the position of the first iterator. */
  function Sweep(cs: seq<Candidate>, i: nat, s: string): Swept
    requires i < |cs|
    decreases |cs| - i
  {
    if i + 1 == |cs| then Swept(cs, None)
    else
      var end1 := End(cs[i]);
      var start2 := cs[i + 1].start;
      if end1 == start2 then Sweep(cs, i + 1, s)
      else if end1 < start2 then Swept(cs, Some(HandleUnmatched(s, end1, start2 - end1)))
      else if IsLonger(cs[i + 1], cs[i]) then Sweep(Erase(cs, i), i, s)
      else Sweep(Erase(cs, i + 1), i, s)
  }

  /** `filterCandidates`: fewer than two candidates are left as they are. */
  function Filter(cs: seq<Candidate>, s: string): Swept
  {
    if |cs| < 2 then Swept(cs, None) else Sweep(cs, 0, s)
  }

  /** The list with the node at position `m` erased. */
  function Erase(cs: seq<Candidate>, m: nat): (r: seq<Candidate>)
    requires m < |cs|
    ensures |r| == |cs| - 1
    ensures forall k :: 0 <= k < |r| ==> r[k] == if k < m then cs[k] else cs[k + 1]
  {
    cs[..m] + cs[m + 1..]
  }

  /** Every adjacent pair before position `n` ends no later than the next
      one starts. */
  predicate SeparatedUpTo(cs: seq<Candidate>, n: nat)
  {
    forall k :: 0 <= k < n && k + 1 < |cs| ==> End(cs[k]) <= cs[k + 1].start
  }

  /** No adjacent pair overlaps. */
  predicate NoOverlap(cs: seq<Candidate>)
  {
    SeparatedUpTo(cs, |cs|)
  }

  /** The adjacent pair at `k` leaves a gap. */
  predicate GapAt(cs: seq<Candidate>, k: nat)
  {
    k + 1 < |cs| && End(cs[k]) < cs[k + 1].start
  }

  /** Every adjacent pair touches exactly: the candidates tile a span. */
  predicate Tiled(cs: seq<Candidate>)
  {
    forall k :: 0 <= k < |cs| - 1 ==> End(cs[k]) == cs[k + 1].start
  }

  /** `xs` is `ys` with some elements left out, the rest in the same order. */
  predicate IsSubseq(xs: seq<Candidate>, ys: seq<Candidate>)
    decreases |ys|
  {
    xs == [] || (ys != [] && ((xs[0] == ys[0] && IsSubseq(xs[1..], ys[1..])) || IsSubseq(xs, ys[1..])))
  }

  /** `y` is preferred over `x`: strictly longer, or as long and earlier in
      the sorted list (it starts before `x`, or at the same offset with a
      type registered no later). */
  predicate Better(y: Candidate, x: Candidate)
  {
    y.len > x.len || (y.len == x.len && (y.start < x.start || (y.start == x.start && y.typeIdx <= x.typeIdx)))
  }

  /** Some other candidate of `orig` that intersects `x` is preferred over it. */
  ghost predicate Beaten(x: Candidate, orig: seq<Candidate>)
  {
    exists y :: y in orig && y != x && Intersects(y, x) && Better(y, x)
  }

  // ----- Subsequences -----

  lemma {:induction false} SubseqRefl(xs: seq<Candidate>)
    ensures IsSubseq(xs, xs)
  {
    if xs != [] {
      SubseqRefl(xs[1..]);
    }
  }

  lemma {:induction false} SubseqErase(cs: seq<Candidate>, m: nat)
    requires m < |cs|
    ensures IsSubseq(Erase(cs, m), cs)
  {
    if m == 0 {
      assert Erase(cs, m) == cs[1..];
      SubseqRefl(cs[1..]);
    } else {
      assert Erase(cs, m)[1..] == Erase(cs[1..], m - 1);
      SubseqErase(cs[1..], m - 1);
    }
  }

  lemma {:induction false} SubseqTrans(a: seq<Candidate>, b: seq<Candidate>, c: seq<Candidate>)
    requires IsSubseq(a, b) && IsSubseq(b, c)
    ensures IsSubseq(a, c)
    decreases |c|
  {
    if a != [] {
      if IsSubseq(b, c[1..]) {
        SubseqTrans(a, b, c[1..]);
      } else if a[0] == b[0] && IsSubseq(a[1..], b[1..]) {
        SubseqTrans(a[1..], b[1..], c[1..]);
      } else {
        SubseqTrans(a, b[1..], c[1..]);
      }
    }
  }

  /** A subsequence holds only candidates of the list it was taken from. */
  lemma {:induction false} SubseqMembers(xs: seq<Candidate>, ys: seq<Candidate>)
    requires IsSubseq(xs, ys)
    ensures forall x :: x in xs ==> x in ys
    decreases |ys|
  {
    if xs != [] {
      if xs[0] == ys[0] && IsSubseq(xs[1..], ys[1..]) {
        SubseqMembers(xs[1..], ys[1..]);
        assert forall x :: x in xs ==> x == xs[0] || x in xs[1..];
      } else {
        SubseqMembers(xs, ys[1..]);
      }
    }
  }

  // ----- Erasing one node -----

  lemma EraseKeepsOrder(cs: seq<Candidate>, m: nat)
    requires m < |cs|
    ensures Sorted(cs) ==> Sorted(Erase(cs, m))
    ensures TieOrdered(cs) ==> TieOrdered(Erase(cs, m))
  {
    var r := Erase(cs, m);
    if Sorted(cs) {
      forall i, j | 0 <= i < j < |r| ensures r[i].start <= r[j].start {
        var i', j' := if i < m then i else i + 1, if j < m then j else j + 1;
        assert r[i] == cs[i'] && r[j] == cs[j'];
      }
    }
    if TieOrdered(cs) {
      forall i, j | 0 <= i < j < |r| && r[i].start == r[j].start ensures r[i].typeIdx <= r[j].typeIdx {
        var i', j' := if i < m then i else i + 1, if j < m then j else j + 1;
        assert r[i] == cs[i'] && r[j] == cs[j'];
      }
    }
  }

  lemma EraseMembers(cs: seq<Candidate>, m: nat)
    requires m < |cs|
    ensures forall x :: x in Erase(cs, m) ==> x in cs
    ensures forall x :: x in cs && x !in Erase(cs, m) ==> x == cs[m]
  {
    var r := Erase(cs, m);
    forall x | x in r ensures x in cs {
      var k :| 0 <= k < |r| && r[k] == x;
      assert cs[if k < m then k else k + 1] == x;
    }
    forall x | x in cs && x != cs[m] ensures x in r {
      var k :| 0 <= k < |cs| && cs[k] == x;
      assert r[if k < m then k else k - 1] == x;
    }
  }

  /** In a sorted list an adjacent pair that neither touches nor leaves a gap
      intersects, in both argument orders. */
  lemma OverlapIntersects(c1: Candidate, c2: Candidate)
    requires c1.start <= c2.start && End(c1) > c2.start
    ensures Intersects(c1, c2) && Intersects(c2, c1)
  {
  }

  // ----- What the sweep guarantees -----

  /** The sweep stopped on the gap after the candidate at `k` of the list it
      left: every pair before it is separated, and the error is the one
      `handleUnmatched` raises for that gap. */
  predicate StoppedAtGap(r: Swept, s: string, k: nat)
  {
    && GapAt(r.kept, k)
    && SeparatedUpTo(r.kept, k)
    && r.error == Some(HandleUnmatched(s, End(r.kept[k]), r.kept[k + 1].start - End(r.kept[k])))
  }

  /** The sweep only ever erases nodes, so what is left is a sorted
      subsequence of its input. */
  lemma {:induction false} SweepKeepsSubseq(cs: seq<Candidate>, i: nat, s: string)
    requires i < |cs| && Sorted(cs)
    ensures IsSubseq(Sweep(cs, i, s).kept, cs)
    ensures Sorted(Sweep(cs, i, s).kept)
    ensures |Sweep(cs, i, s).kept| > i
    decreases |cs| - i
  {
    if i + 1 == |cs| {
      SubseqRefl(cs);
    } else {
      var end1 := End(cs[i]);
      var start2 := cs[i + 1].start;
      if end1 == start2 {
        SweepKeepsSubseq(cs, i + 1, s);
      } else if end1 < start2 {
        SubseqRefl(cs);
      } else {
        var m := if IsLonger(cs[i + 1], cs[i]) then i else i + 1;
        var next := Erase(cs, m);
        EraseKeepsOrder(cs, m);
        SweepKeepsSubseq(next, i, s);
        SubseqErase(cs, m);
        SubseqTrans(Sweep(next, i, s).kept, next, cs);
      }
    }
  }

  /** Erasing either member of the overlapping pair at `i` keeps the pairs
      before `i` separated. */
  lemma EraseKeepsSeparated(cs: seq<Candidate>, i: nat, m: nat)
    requires i + 1 < |cs| && (m == i || m == i + 1)
    requires Sorted(cs) && SeparatedUpTo(cs, i)
    ensures SeparatedUpTo(Erase(cs, m), i)
  {
    var next := Erase(cs, m);
    forall k | 0 <= k < i && k + 1 < |next|
      ensures End(next[k]) <= next[k + 1].start
    {
      if k + 1 == i && m == i {
        assert next[k] == cs[k] && next[k + 1] == cs[i + 1];
        assert cs[i].start <= cs[i + 1].start;
      } else {
        assert next[k] == cs[k] && next[k + 1] == cs[k + 1];
      }
    }
  }

  /** When the sweep finishes, no adjacent pair overlaps; when it stops, it
      stopped on a gap between two adjacent candidates of the list it leaves. */
  lemma {:induction false} SweepSeparates(cs: seq<Candidate>, i: nat, s: string)
    requires i < |cs|
    requires Sorted(cs) && SeparatedUpTo(cs, i)
    ensures var r := Sweep(cs, i, s);
      && (r.error.None? ==> NoOverlap(r.kept))
      && (r.error.Some? ==> exists k: nat :: StoppedAtGap(r, s, k))
    decreases |cs| - i
  {
    if i + 1 < |cs| {
      var end1 := End(cs[i]);
      var start2 := cs[i + 1].start;
      if end1 == start2 {
        assert Sweep(cs, i, s) == Sweep(cs, i + 1, s);
        SweepSeparates(cs, i + 1, s);
      } else if end1 < start2 {
        assert Sweep(cs, i, s) == Swept(cs, Some(HandleUnmatched(s, end1, start2 - end1)));
        assert StoppedAtGap(Sweep(cs, i, s), s, i);
      } else {
        var m := if IsLonger(cs[i + 1], cs[i]) then i else i + 1;
        var next := Erase(cs, m);
        assert Sweep(cs, i, s) == Sweep(next, i, s);
        EraseKeepsOrder(cs, m);
        EraseKeepsSeparated(cs, i, m);
        SweepSeparates(next, i, s);
      }
    }
  }

  /** Overlap resolution never gives up a candidate for a worse one: every
      candidate of `orig` that the sweep discards has an intersecting, different
      candidate of `orig` that is strictly longer, or as long and ahead of it
      in the sorted order (which, by the stable sort, means registered no
      later when both start at the same offset). */
  lemma {:induction false} SweepDiscardsOnlyBeaten(orig: seq<Candidate>, cs: seq<Candidate>, i: nat, s: string)
    requires i < |cs|
    requires Sorted(cs) && TieOrdered(cs)
    requires forall x :: x in cs ==> x in orig
    requires forall x :: x in orig && x !in cs ==> Beaten(x, orig)
    ensures forall x :: x in orig && x !in Sweep(cs, i, s).kept ==> Beaten(x, orig)
    decreases |cs| - i
  {
    if i + 1 < |cs| {
      var c1, c2 := cs[i], cs[i + 1];
      if End(c1) == c2.start {
        SweepDiscardsOnlyBeaten(orig, cs, i + 1, s);
      } else if End(c1) > c2.start {
        assert c1.start <= c2.start;
        OverlapIntersects(c1, c2);
        var m := if IsLonger(c2, c1) then i else i + 1;
        var next := Erase(cs, m);
        EraseKeepsOrder(cs, m);
        EraseMembers(cs, m);
        forall x | x in orig && x !in next ensures Beaten(x, orig) {
          if x in cs {
            assert x == cs[m];
            if m == i {
              assert c2 in next;
              assert c2 in orig && c2 != x && Intersects(c2, x) && Better(c2, x);
            } else {
              assert next[i] == c1;
              assert c1 in orig && c1 != x && Intersects(c1, x) && Better(c1, x);
            }
          }
        }
        SweepDiscardsOnlyBeaten(orig, next, i, s);
      }
    }
  }

  /** A list whose adjacent candidates all touch exactly passes the sweep
      unchanged and without error. */
  lemma {:induction false} SweepKeepsTiling(cs: seq<Candidate>, i: nat, s: string)
    requires i < |cs| && Tiled(cs)
    ensures Sweep(cs, i, s) == Swept(cs, None)
    decreases |cs| - i
  {
    if i + 1 < |cs| {
      SweepKeepsTiling(cs, i + 1, s);
    }
  }

  /** `filterCandidates` on a sorted list: the result is a sorted subsequence
      of its input, empty only when the input is; with fewer than two
      candidates nothing changes and nothing fails; on success no adjacent
      pair overlaps; a failure reports a gap between two adjacent candidates
      of the list left behind. */
  lemma FilterSound(cs: seq<Candidate>, s: string)
    requires Sorted(cs)
    ensures var r := Filter(cs, s);
      && IsSubseq(r.kept, cs)
      && Sorted(r.kept)
      && (|r.kept| == 0 <==> |cs| == 0)
      && (|cs| < 2 ==> r == Swept(cs, None))
      && (r.error.None? ==> NoOverlap(r.kept))
      && (r.error.Some? ==> exists k: nat :: StoppedAtGap(r, s, k))
  {
    if |cs| < 2 {
      SubseqRefl(cs);
    } else {
      SweepKeepsSubseq(cs, 0, s);
      SweepSeparates(cs, 0, s);
    }
  }

  /** The tie-break as a whole: with the list sorted and equal starts in
      registration order, a candidate is discarded only in favour of an
      intersecting one that is longer, or as long and earlier. */
  lemma FilterDiscardsOnlyBeaten(cs: seq<Candidate>, s: string)
    requires Sorted(cs) && TieOrdered(cs)
    ensures forall x :: x in cs && x !in Filter(cs, s).kept ==> Beaten(x, cs)
  {
    if |cs| >= 2 {
      SweepDiscardsOnlyBeaten(cs, cs, 0, s);
    }
  }

  // ----- The later of two equal candidates never survives -----

  /** `w` covers the start of `b` and is at least as long, so `b`, as the
      second of a pair with `w`, overlaps it and is never strictly longer. */
  predicate Shadows(w: Candidate, b: Candidate)
  {
    w.start <= b.start < End(w) && w.len >= b.len
  }

  /** No copy of `b` among the first `n` candidates. */
  predicate AbsentBefore(cs: seq<Candidate>, b: Candidate, n: nat)
  {
    forall k :: 0 <= k < n && k < |cs| ==> cs[k] != b
  }

  /** Erasing one of the first `n + 1` candidates leaves no copy of `b`
      among the first `n`. */
  lemma EraseAbsent(cs: seq<Candidate>, b: Candidate, m: nat, n: nat)
    requires m <= n < |cs| && AbsentBefore(cs, b, n + 1)
    ensures AbsentBefore(Erase(cs, m), b, n)
  {
    var next := Erase(cs, m);
    forall j | 0 <= j < n && j < |next| ensures next[j] != b {
      assert next[j] == cs[if j < m then j else j + 1];
    }
  }

  /** The overlap branch of the sweep: which of the pair is erased. */
  lemma OverlapStep(cs: seq<Candidate>, i: nat, s: string) returns (m: nat)
    requires i + 1 < |cs| && End(cs[i]) > cs[i + 1].start
    ensures m == (if IsLonger(cs[i + 1], cs[i]) then i else i + 1)
    ensures Sweep(cs, i, s) == Sweep(Erase(cs, m), i, s)
  {
    m := if IsLonger(cs[i + 1], cs[i]) then i else i + 1;
  }

  /** One step with the first iterator on a candidate that shadows `b` and
      the second starting no later than `b`: the pair overlaps, one of the
      two is erased, and the first iterator still shadows `b`. */
  lemma ShadowStep(cs: seq<Candidate>, i: nat, s: string, b: Candidate) returns (next: seq<Candidate>)
    requires i + 1 < |cs| && Sorted(cs)
    requires Shadows(cs[i], b) && AbsentBefore(cs, b, i + 1) && cs[i + 1].start <= b.start
    ensures |next| == |cs| - 1 && Sorted(next)
    ensures Shadows(next[i], b) && AbsentBefore(next, b, i + 1)
    ensures Sweep(cs, i, s) == Sweep(next, i, s)
  {
    var m := OverlapStep(cs, i, s);
    next := Erase(cs, m);
    EraseKeepsOrder(cs, m);
    if m == i {
      assert next[i] == cs[i + 1];
    } else {
      assert next[i] == cs[i];
    }
    forall j | 0 <= j < i + 1 && j < |next| ensures next[j] != b {
      if j < m {
        assert next[j] == cs[j];
      } else {
        assert next[j] == cs[i + 1] && cs[i + 1].len > cs[i].len;
      }
    }
  }

  /** Once the first iterator rests on a candidate that shadows `b`, and no
      copy of `b` lies at or before it, every copy of `b` still ahead meets
      the first iterator as the second of an overlapping pair and is erased,
      while the first iterator keeps shadowing `b`. */
  lemma {:induction false} ShadowedNeverKept(cs: seq<Candidate>, i: nat, s: string, b: Candidate)
    requires i < |cs| && Sorted(cs)
    requires Shadows(cs[i], b) && AbsentBefore(cs, b, i + 1)
    ensures Sweep(cs, i, s).error.None? ==> b !in Sweep(cs, i, s).kept
    decreases |cs| - i
  {
    if exists k :: i < k < |cs| && cs[k] == b {
      var k :| i < k < |cs| && cs[k] == b;
      assert cs[i + 1].start <= cs[k].start;
      var next := ShadowStep(cs, i, s, b);
      ShadowedNeverKept(next, i, s, b);
    } else {
      assert b !in cs;
      SweepKeepsSubseq(cs, i, s);
      SubseqMembers(Sweep(cs, i, s).kept, cs);
    }
  }

  /** The overlap branch when it meets `a` right after the first iterator
      and `a` loses: the first iterator stays and shadows `b`. */
  lemma MeetLoses(cs: seq<Candidate>, i: nat, b: Candidate)
    requires i + 1 < |cs| && cs[i].start <= cs[i + 1].start
    requires cs[i + 1].start == b.start && cs[i + 1].len == b.len
    requires End(cs[i]) > cs[i + 1].start && !IsLonger(cs[i + 1], cs[i])
    ensures Shadows(Erase(cs, i + 1)[i], b)
  {
    assert Erase(cs, i + 1)[i] == cs[i];
  }

  /** Before the sweep reaches `a` (at position `p`, with no copy of `b` at
      or before it): whatever happens to `a` when it is met, the first
      iterator ends up on a candidate that shadows `b`, unless a gap stops
      the sweep first. */
  lemma {:induction false} EqualLaterNeverKept(cs: seq<Candidate>, i: nat, p: nat, s: string, a: Candidate, b: Candidate)
    requires i <= p < |cs| && Sorted(cs) && cs[p] == a
    requires a.start == b.start && a.len == b.len && b.len > 0
    requires AbsentBefore(cs, b, p + 1)
    ensures Sweep(cs, i, s).error.None? ==> b !in Sweep(cs, i, s).kept
    decreases |cs| - i, 1
  {
    if p == i {
      ShadowedNeverKept(cs, i, s, b);
    } else if End(cs[i]) == cs[i + 1].start {
      EqualLaterNeverKept(cs, i + 1, p, s, a, b);
    } else if End(cs[i]) > cs[i + 1].start {
      EqualLaterOverlap(cs, i, p, s, a, b);
    }
  }

  /** The overlap case of `EqualLaterNeverKept`: either `a` is met as the
      second of the pair and loses, and the first iterator then shadows `b`,
      or `a` is still ahead, one place earlier. */
  lemma {:induction false} EqualLaterOverlap(cs: seq<Candidate>, i: nat, p: nat, s: string, a: Candidate, b: Candidate)
    requires i < p < |cs| && Sorted(cs) && cs[p] == a
    requires a.start == b.start && a.len == b.len && b.len > 0
    requires AbsentBefore(cs, b, p + 1)
    requires End(cs[i]) > cs[i + 1].start
    ensures Sweep(cs, i, s).error.None? ==> b !in Sweep(cs, i, s).kept
    decreases |cs| - i, 0
  {
    var m := OverlapStep(cs, i, s);
    var next := Erase(cs, m);
    EraseKeepsOrder(cs, m);
    EraseAbsent(cs, b, m, p);
    if m == i + 1 && p == i + 1 {
      MeetLoses(cs, i, b);
      ShadowedNeverKept(next, i, s, b);
    } else {
      assert next[p - 1] == a;
      EqualLaterNeverKept(next, i, p - 1, s, a, b);
    }
  }

  /** The tie-break as the source comments promise it: on a sorted list with
      equal starts in registration order, when the sweep succeeds, of two
      non-empty candidates with the same span the one of the later-registered
      type is never kept. */
  lemma FilterTieBreak(cs: seq<Candidate>, s: string)
    requires Sorted(cs) && TieOrdered(cs)
    ensures Filter(cs, s).error.None? ==>
      forall a, b :: a in cs && b in cs && a.start == b.start && a.len == b.len && a.len > 0 && a.typeIdx < b.typeIdx
        ==> b !in Filter(cs, s).kept
  {
    forall a, b | a in cs && b in cs && a.start == b.start && a.len == b.len && a.len > 0 && a.typeIdx < b.typeIdx
      ensures Filter(cs, s).error.None? ==> b !in Filter(cs, s).kept
    {
      var p :| 0 <= p < |cs| && cs[p] == a;
      var q :| 0 <= q < |cs| && cs[q] == b;
      assert p != q;
      assert AbsentBefore(cs, b, p + 1) by {
        forall j | 0 <= j < p + 1 && j < |cs| ensures cs[j] != b {
          assert j == p || cs[j].typeIdx <= cs[p].typeIdx || cs[j].start != cs[p].start;
        }
      }
      EqualLaterNeverKept(cs, 0, p, s, a, b);
    }
  }

  /** Why the tie-break needs non-empty matches: two empty matches at the same
      offset touch, so the sweep moves on and keeps both. */
  lemma EmptyTieKeepsBoth()
    ensures var a, b := Candidate(0, "", 0, 0), Candidate(1, "", 0, 0);
      Filter([a, b], "") == Swept([a, b], None)
  {
    var a, b := Candidate(0, "", 0, 0), Candidate(1, "", 0, 0);
    assert Sweep([a, b], 1, "") == Swept([a, b], None);
  }

  /** Without overlap, adjacent separation extends to every pair: a
      candidate ends no later than any later candidate starts. */
  lemma {:induction false} NoOverlapPairwise(cs: seq<Candidate>, j: nat, k: nat)
    requires NoOverlap(cs) && j < k < |cs|
    ensures End(cs[j]) <= cs[k].start
    decreases k - j
  {
    if j + 1 < k {
      NoOverlapPairwise(cs, j + 1, k);
    }
  }

  /** When every candidate was matched in `s` and lies inside it, a gap
      report is exact: a non-empty span of `s` and the text of that span. */
  lemma GapReportExact(kept: seq<Candidate>, k: nat, s: string)
    requires GapAt(kept, k)
    requires kept[k + 1].text == s && InText(kept[k + 1])
    ensures var pos := End(kept[k]);
      var len := kept[k + 1].start - End(kept[k]);
      && len > 0
      && pos + len <= |s|
      && HandleUnmatched(s, pos, len) == Unmatched(pos, len, s[pos..pos + len])
  {
  }
}
