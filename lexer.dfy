/**
  The `Lexer` class: the registered token types, the texts it has lexed, the
  working list of candidates and the tokens produced so far, all lists that
  its methods grow and edit in place. `lex` runs discovery, the stable sort
  and the overlap sweep, then converts every candidate left into a token.
  The candidate list is never cleared, so a later call works on what earlier
  calls left in it.
 */
module Lexing {
  import opened Wrappers
  import opened Candidates
  import opened Discovery
  import opened Ordering
  import opened Filtering

  /** Every candidate refers to a registered slot and lies inside its text,
      so it can be handed to its type's conversion. */
  predicate Convertible(types: seq<TokenType>, cs: seq<Candidate>)
  {
    forall c :: c in cs ==> c.typeIdx < |types| && InText(c)
  }

  /** The token a candidate converts to: its type and its matched slice. */
  function ToToken(types: seq<TokenType>, c: Candidate): Token
    requires c.typeIdx < |types| && InText(c)
  {
    Token(types[c.typeIdx], c.text[c.start..End(c)])
  }

  /** One token per candidate, in list order. */
  function Convert(types: seq<TokenType>, cs: seq<Candidate>): (r: seq<Token>)
    requires Convertible(types, cs)
    ensures |r| == |cs|
  {
    seq(|cs|, i requires 0 <= i < |cs| => ToToken(types, cs[i]))
  }

  /** The text of the tokens, one lexeme after the other. */
  function Lexemes(ts: seq<Token>): string
  {
    if ts == [] then [] else Lexemes(ts[..|ts| - 1]) + ts[|ts| - 1].lexeme
  }

  class Lexer {
    /** Token types in registration order; duplicates allowed. */
    var tokenTypes: seq<TokenType>
    /** Every text passed to `Lex`, kept for as long as the lexer lives. */
    var stringsLexed: seq<string>
    /** The working list of candidate tokens. */
    var candidates: seq<Candidate>
    /** The tokens produced so far. */
    var tokens: seq<Token>

    ghost predicate Valid()
      reads this
    {
      Convertible(tokenTypes, candidates)
    }

    constructor ()
      ensures Valid()
      ensures tokenTypes == [] && stringsLexed == [] && candidates == [] && tokens == []
    {
      tokenTypes, stringsLexed, candidates, tokens := [], [], [], [];
    }

    /** `registerTokenType`: appended after the types registered before it. */
    method RegisterTokenType(t: TokenType)
      requires Valid()
      modifies this`tokenTypes
      ensures Valid()
      ensures tokenTypes == old(tokenTypes) + [t]
    {
      tokenTypes := tokenTypes + [t];
    }

    /** `findCandidates`: scans `s` with every registered type in
      registration order and appends one candidate per match; a pattern that
      does not compile stops the scan with the candidates of the earlier
      types already appended. */
    method FindCandidates(s: string, engine: Engine) returns (err: Option<LexError>)
      requires Valid() && SoundOn(engine, s)
      modifies this`candidates
      ensures Valid()
      ensures var scan := Discover(tokenTypes, s, engine, |tokenTypes|);
        && candidates == old(candidates) + scan.found
        && err == if scan.bad.Some? then Some(BadPattern(tokenTypes[scan.bad.value].pat)) else None
    {
      var k := 0;
      while k < |tokenTypes|
        invariant k <= |tokenTypes|
        invariant Valid()
        invariant Discover(tokenTypes, s, engine, k).bad.None?
        invariant candidates == old(candidates) + Discover(tokenTypes, s, engine, k).found
      {
        var found := engine(tokenTypes[k].pat, s);
        if found.None? {
          DiscoverStaysStopped(tokenTypes, s, engine, k + 1, |tokenTypes|);
          return Some(BadPattern(tokenTypes[k].pat));
        }
        var ms := found.value;
        assert Within(ms, |s|);
        var j := 0;
        while j < |ms|
          invariant j <= |ms|
          invariant Valid()
          invariant candidates == old(candidates) + Discover(tokenTypes, s, engine, k).found + FromMatches(k, s, ms[..j])
        {
          assert FromMatches(k, s, ms[..j + 1]) == FromMatches(k, s, ms[..j]) + [Candidate(k, s, ms[j].pos, ms[j].len)];
          candidates := candidates + [Candidate(k, s, ms[j].pos, ms[j].len)];
          j := j + 1;
        }
        assert ms[..j] == ms;
        ghost var prev := Discover(tokenTypes, s, engine, k).found;
        assert Discover(tokenTypes, s, engine, k + 1) == Scan(prev + FromMatches(k, s, ms), None);
        assert old(candidates) + prev + FromMatches(k, s, ms) == old(candidates) + (prev + FromMatches(k, s, ms));
        k := k + 1;
      }
      err := None;
    }

    /** `sortCandidates`: the stable sort of the whole candidate list by start. */
    method SortCandidates()
      requires Valid()
      modifies this`candidates
      ensures Valid()
      ensures candidates == SortByStart(old(candidates))
    {
      var sorted := SortByStart(candidates);
      assert forall c :: c in sorted ==> c in multiset(candidates);
      candidates := sorted;
    }

    /** `filterCandidates`: the sweep over adjacent pairs; `i` is the position
      of the first iterator and `i + 1` that of the second. An overlap erases
      one node and leaves both iterators on the new pair; a gap stops the
      sweep with the error of `handleUnmatched`, the list as it stands. */
    method FilterCandidates(s: string) returns (err: Option<LexError>)
      requires Valid()
      modifies this`candidates
      ensures Valid()
      ensures Swept(candidates, err) == Filter(old(candidates), s)
    {
      if |candidates| < 2 {
        return None;
      }
      var i := 0;
      while i + 1 < |candidates|
        invariant i < |candidates|
        invariant Valid()
        invariant Sweep(candidates, i, s) == Sweep(old(candidates), 0, s)
        decreases |candidates| - i
      {
        var end1 := End(candidates[i]);
        var start2 := candidates[i + 1].start;
        ghost var before := candidates;
        if end1 == start2 {
          assert Sweep(before, i, s) == Sweep(before, i + 1, s);
          i := i + 1;
        } else if end1 < start2 {
          assert Sweep(before, i, s) == Swept(before, Some(HandleUnmatched(s, end1, start2 - end1)));
          return Some(HandleUnmatched(s, end1, start2 - end1));
        } else if IsLonger(candidates[i + 1], candidates[i]) {
          assert Sweep(before, i, s) == Sweep(Erase(before, i), i, s);
          EraseMembers(candidates, i);
          candidates := Erase(candidates, i);
        } else {
          assert Sweep(before, i, s) == Sweep(Erase(before, i + 1), i, s);
          EraseMembers(candidates, i + 1);
          candidates := Erase(candidates, i + 1);
        }
      }
      err := None;
    }

    /** `lex`: keeps `s`, scans, sorts and filters, then appends one token per
      candidate left, in list order. On an error no token is appended. */
    method Lex(s: string, engine: Engine) returns (err: Option<LexError>)
      requires Valid() && SoundOn(engine, s)
      modifies this`stringsLexed, this`candidates, this`tokens
      ensures Valid()
      ensures stringsLexed == old(stringsLexed) + [s]
      ensures var scan := Discover(tokenTypes, s, engine, |tokenTypes|);
        if scan.bad.Some? then
          && err == Some(BadPattern(tokenTypes[scan.bad.value].pat))
          && candidates == old(candidates) + scan.found
          && tokens == old(tokens)
        else
          var f := Filter(SortByStart(old(candidates) + scan.found), s);
          && err == f.error
          && candidates == f.kept
          && tokens == old(tokens) + if err.None? then Convert(tokenTypes, candidates) else []
    {
      stringsLexed := stringsLexed + [s];
      err := FindCandidates(s, engine);
      if err.Some? {
        return;
      }
      SortCandidates();
      err := FilterCandidates(s);
      if err.Some? {
        return;
      }
      ConvertCandidates();
    }

    /** The last step of `lex`: one token per candidate, appended in list
      order. */
    method ConvertCandidates()
      requires Valid()
      modifies this`tokens
      ensures tokens == old(tokens) + Convert(tokenTypes, candidates)
    {
      var k := 0;
      while k < |candidates|
        invariant k <= |candidates|
        invariant tokens == old(tokens) + Convert(tokenTypes, candidates[..k])
      {
        assert Convert(tokenTypes, candidates[..k + 1]) == Convert(tokenTypes, candidates[..k]) + [ToToken(tokenTypes, candidates[k])];
        tokens := tokens + [ToToken(tokenTypes, candidates[k])];
        k := k + 1;
      }
      assert candidates[..k] == candidates;
    }
  }

  // ----- One call of `lex` on a lexer whose candidate list is empty -----

  /** What one call leaves in the candidate list: the surviving candidates are
      a sorted subsequence of the sorted discoveries, all matched in `s` and
      convertible; on success a candidate ends no later than any later one
      starts. */
  lemma FreshLexSound(types: seq<TokenType>, s: string, engine: Engine)
    requires SoundOn(engine, s)
    requires Discover(types, s, engine, |types|).bad.None?
    ensures var sorted := SortByStart(Discover(types, s, engine, |types|).found);
      var f := Filter(sorted, s);
      && IsSubseq(f.kept, sorted)
      && Sorted(f.kept)
      && Convertible(types, f.kept)
      && (forall c :: c in f.kept ==> c.text == s)
      && (f.error.None? ==> forall j, k :: 0 <= j < k < |f.kept| ==> End(f.kept[j]) <= f.kept[k].start)
  {
    var found := Discover(types, s, engine, |types|).found;
    var sorted := SortByStart(found);
    var f := Filter(sorted, s);
    DiscoverShape(types, s, engine, |types|);
    SortByStartMembers(found);
    FilterSound(sorted, s);
    SubseqMembers(f.kept, sorted);
    if f.error.None? {
      forall j, k | 0 <= j < k < |f.kept| ensures End(f.kept[j]) <= f.kept[k].start {
        NoOverlapPairwise(f.kept, j, k);
      }
    }
  }

  /** A failed call names a non-empty gap of `s` between two adjacent
      survivors, with the exact text of that gap. */
  lemma FreshLexGapReport(types: seq<TokenType>, s: string, engine: Engine)
    requires SoundOn(engine, s)
    requires Discover(types, s, engine, |types|).bad.None?
    requires Filter(SortByStart(Discover(types, s, engine, |types|).found), s).error.Some?
    ensures var f := Filter(SortByStart(Discover(types, s, engine, |types|).found), s);
      exists k: nat :: ExactGapReport(f, s, k)
  {
    var found := Discover(types, s, engine, |types|).found;
    DiscoverShape(types, s, engine, |types|);
    SortByStartMembers(found);
    FilterGapReport(SortByStart(found), s);
  }

  /** The gap after the survivor at `k` is a non-empty span of `s`, and the
      error carries its offset, its length and its exact text. */
  predicate ExactGapReport(f: Swept, s: string, k: nat)
  {
    && GapAt(f.kept, k)
    && f.kept[k + 1].start <= |s|
    && f.error == Some(Unmatched(End(f.kept[k]), f.kept[k + 1].start - End(f.kept[k]), s[End(f.kept[k])..f.kept[k + 1].start]))
  }

  lemma FilterGapReport(cs: seq<Candidate>, s: string)
    requires Sorted(cs)
    requires forall c :: c in cs ==> c.text == s && InText(c)
    requires Filter(cs, s).error.Some?
    ensures exists k: nat :: ExactGapReport(Filter(cs, s), s, k)
  {
    var f := Filter(cs, s);
    FilterSound(cs, s);
    SubseqMembers(f.kept, cs);
    var k: nat :| StoppedAtGap(f, s, k);
    assert f.kept[k + 1] in f.kept;
    GapReportExact(f.kept, k, s);
    assert ExactGapReport(f, s, k);
  }

  /** The tie-break of one call, stated over the discovered candidates: a
      candidate is discarded only when a different candidate that intersects
      it is strictly longer, or equally long and starting earlier, or equally
      long at the same offset and of a type registered strictly earlier. */
  lemma FreshLexDiscardsOnlyBeaten(types: seq<TokenType>, s: string, engine: Engine)
    requires Discover(types, s, engine, |types|).bad.None?
    ensures var found := Discover(types, s, engine, |types|).found;
      var kept := Filter(SortByStart(found), s).kept;
      forall x :: x in found && x !in kept ==>
        exists y :: && y in found && y != x && Intersects(y, x)
                    && (|| y.len > x.len
                        || (y.len == x.len && y.start < x.start)
                        || (y.len == x.len && y.start == x.start && y.typeIdx < x.typeIdx))
  {
    var found := Discover(types, s, engine, |types|).found;
    var sorted := SortByStart(found);
    var kept := Filter(sorted, s).kept;
    DiscoverShape(types, s, engine, |types|);
    SortKeepsRegistrationOrder(found);
    FilterDiscardsOnlyBeaten(sorted, s);
    forall x | x in found && x !in kept
      ensures exists y :: && y in found && y != x && Intersects(y, x)
                          && (|| y.len > x.len
                              || (y.len == x.len && y.start < x.start)
                              || (y.len == x.len && y.start == x.start && y.typeIdx < x.typeIdx))
    {
      assert x in multiset(found);
      assert x in sorted;
      var y :| y in sorted && y != x && Intersects(y, x) && Better(y, x);
      assert y in multiset(sorted);
      assert y in found;
    }
  }

  /** The other half of the tie-break for one call: when the call succeeds,
      of two non-empty matches of the same span, the one of the type
      registered later is never kept. */
  lemma FreshLexTieBreak(types: seq<TokenType>, s: string, engine: Engine)
    requires Discover(types, s, engine, |types|).bad.None?
    ensures var found := Discover(types, s, engine, |types|).found;
      var f := Filter(SortByStart(found), s);
      f.error.None? ==>
        forall a, b :: a in found && b in found && a.start == b.start && a.len == b.len && a.len > 0 && a.typeIdx < b.typeIdx
          ==> b !in f.kept
  {
    var found := Discover(types, s, engine, |types|).found;
    DiscoverShape(types, s, engine, |types|);
    SortKeepsRegistrationOrder(found);
    SortByStartMembers(found);
    FilterTieBreak(SortByStart(found), s);
  }

  /** The lexemes of the tokens made from candidates that tile their common
      text spell that text from the first start to the last end. */
  lemma {:induction false} TiledLexemes(types: seq<TokenType>, cs: seq<Candidate>, s: string)
    requires |cs| > 0 && Tiled(cs) && Convertible(types, cs)
    requires forall c :: c in cs ==> c.text == s
    ensures cs[0].start <= End(cs[|cs| - 1]) <= |s|
    ensures Lexemes(Convert(types, cs)) == s[cs[0].start..End(cs[|cs| - 1])]
  {
    var n := |cs|;
    assert cs[n - 1] in cs;
    var ts := Convert(types, cs);
    if n == 1 {
      assert ts[..0] == [];
    } else {
      var init := cs[..n - 1];
      assert forall c :: c in init ==> c in cs;
      assert Tiled(init);
      TiledLexemes(types, init, s);
      assert ts[..n - 1] == Convert(types, init);
      assert End(init[n - 2]) == cs[n - 1].start;
      assert s[cs[0].start..End(cs[n - 1])] == s[cs[0].start..cs[n - 1].start] + s[cs[n - 1].start..End(cs[n - 1])];
    }
  }

  /** Candidates that tile the whole of `s` pass the sweep unchanged and
      without error, and their tokens spell `s` exactly. */
  lemma FilterOfTiling(types: seq<TokenType>, cs: seq<Candidate>, s: string)
    requires |cs| > 0 && Tiled(cs) && Convertible(types, cs)
    requires forall c :: c in cs ==> c.text == s
    requires cs[0].start == 0 && End(cs[|cs| - 1]) == |s|
    ensures Filter(cs, s) == Swept(cs, None)
    ensures Lexemes(Convert(types, cs)) == s
  {
    if |cs| >= 2 {
      SweepKeepsTiling(cs, 0, s);
    }
    TiledLexemes(types, cs, s);
  }

  /** When the sorted discoveries already tile the whole of `s`, one call of
      `lex` succeeds, keeps every candidate, and the tokens it appends spell
      `s` exactly. */
  lemma FreshLexOfTiling(types: seq<TokenType>, s: string, engine: Engine)
    requires SoundOn(engine, s)
    requires Discover(types, s, engine, |types|).bad.None?
    requires var sorted := SortByStart(Discover(types, s, engine, |types|).found);
      |sorted| > 0 && Tiled(sorted) && sorted[0].start == 0 && End(sorted[|sorted| - 1]) == |s|
    ensures var sorted := SortByStart(Discover(types, s, engine, |types|).found);
      && Filter(sorted, s) == Swept(sorted, None)
      && Convertible(types, sorted)
      && Lexemes(Convert(types, sorted)) == s
  {
    var found := Discover(types, s, engine, |types|).found;
    DiscoverShape(types, s, engine, |types|);
    SortByStartMembers(found);
    FilterOfTiling(types, SortByStart(found), s);
  }

  /** Scanning the empty text, with an engine that finds nothing there for
      any registered pattern, adds no candidate and raises no error. */
  lemma {:induction false} DiscoverNothing(types: seq<TokenType>, s: string, engine: Engine, n: nat)
    requires n <= |types|
    requires forall k :: 0 <= k < n ==> engine(types[k].pat, s) == Some([])
    ensures Discover(types, s, engine, n) == Scan([], None)
  {
    if n > 0 {
      DiscoverNothing(types, s, engine, n - 1);
      assert FromMatches(n - 1, s, []) == [];
    }
  }

  /** An empty text, on a lexer with an empty candidate list, lexes to no
      token and no error when no pattern matches it. */
  lemma FreshLexEmptyText(types: seq<TokenType>, engine: Engine)
    requires forall k :: 0 <= k < |types| ==> engine(types[k].pat, "") == Some([])
    ensures var scan := Discover(types, "", engine, |types|);
      && scan == Scan([], None)
      && Filter(SortByStart([] + scan.found), "") == Swept([], None)
  {
    DiscoverNothing(types, "", engine, |types|);
  }
}
