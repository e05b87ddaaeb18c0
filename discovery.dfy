/**
  Candidate discovery (`Lexer::findCandidates`): every registered type, in
  registration order, contributes one candidate per match the pattern engine
  reports, in the order it reports them.
 */
module Discovery {
  import opened Wrappers
  import opened Candidates

  /** The pattern engine the lexer relies on: given a pattern and a text it
      reports the matches left to right, or `None` when the pattern does not
      compile (the engine throws before any match of that pattern is used). */
  type Engine = (string, string) -> Option<seq<Span>>

  /** Every reported span lies inside a text of length `n`. */
  predicate Within(ms: seq<Span>, n: nat)
  {
    forall i :: 0 <= i < |ms| ==> ms[i].pos + ms[i].len <= n
  }

  /** What the lexer assumes of the engine on text `s`: any match it reports
      for any pattern lies inside `s`. */
  ghost predicate SoundOn(engine: Engine, s: string)
  {
    forall p :: engine(p, s).Some? ==> Within(engine(p, s).value, |s|)
  }

  /** The candidates made from the matches `ms` of the type in slot `k`. */
  function FromMatches(k: nat, s: string, ms: seq<Span>): seq<Candidate>
  {
    seq(|ms|, i requires 0 <= i < |ms| => Candidate(k, s, ms[i].pos, ms[i].len))
  }

  /** The outcome of scanning: the candidates found so far, and the slot of
      the first type whose pattern failed to compile, if any. */
  datatype Scan = Scan(found: seq<Candidate>, bad: Option<nat>)

  /** Scanning `s` with the first `n` registered types, in registration order,
      stopping at the first pattern that does not compile. */
  function Discover(types: seq<TokenType>, s: string, engine: Engine, n: nat): (r: Scan)
    requires n <= |types|
    ensures r.bad.Some? ==> r.bad.value < n
  {
    if n == 0 then Scan([], None)
    else
      var prev := Discover(types, s, engine, n - 1);
      if prev.bad.Some? then prev
      else match engine(types[n - 1].pat, s)
        case None => Scan(prev.found, Some(n - 1))
        case Some(ms) => Scan(prev.found + FromMatches(n - 1, s, ms), None)
  }

  /** The candidates of type slot `k` in `cs`, in their order in `cs`. */
  function OfType(cs: seq<Candidate>, k: nat): seq<Candidate>
  {
    if cs == [] then []
    else (if cs[0].typeIdx == k then [cs[0]] else []) + OfType(cs[1..], k)
  }

  lemma {:induction false} OfTypeAppend(a: seq<Candidate>, b: seq<Candidate>, k: nat)
    ensures OfType(a + b, k) == OfType(a, k) + OfType(b, k)
  {
    if a == [] {
      assert a + b == b;
    } else {
      var ab := a + b;
      assert ab[0] == a[0];
      assert ab[1..] == a[1..] + b;
      OfTypeAppend(a[1..], b, k);
      calc {
        OfType(ab, k);
        (if a[0].typeIdx == k then [a[0]] else []) + OfType(a[1..] + b, k);
        (if a[0].typeIdx == k then [a[0]] else []) + (OfType(a[1..], k) + OfType(b, k));
        OfType(a, k) + OfType(b, k);
      }
    }
  }

  lemma {:induction false} OfTypeFromMatches(j: nat, s: string, ms: seq<Span>, k: nat)
    ensures OfType(FromMatches(j, s, ms), k) == if j == k then FromMatches(j, s, ms) else []
  {
    if ms != [] {
      assert FromMatches(j, s, ms)[1..] == FromMatches(j, s, ms[1..]);
      OfTypeFromMatches(j, s, ms[1..], k);
    }
  }

  /** The candidates found are grouped by type in registration order, each
      refers to one of the scanned slots, was matched in `s`, and lies inside
      `s` when the engine is sound on `s`. */
  lemma {:induction false} DiscoverShape(types: seq<TokenType>, s: string, engine: Engine, n: nat)
    requires n <= |types|
    ensures var r := Discover(types, s, engine, n);
      && Grouped(r.found)
      && (forall c :: c in r.found ==> c.typeIdx < n && c.text == s)
      && (SoundOn(engine, s) ==> forall c :: c in r.found ==> InText(c))
  {
    if n > 0 {
      DiscoverShape(types, s, engine, n - 1);
      var prev := Discover(types, s, engine, n - 1);
      if prev.bad.None? && engine(types[n - 1].pat, s).Some? {
        var ms := engine(types[n - 1].pat, s).value;
        var r := prev.found + FromMatches(n - 1, s, ms);
        forall i, j | 0 <= i < j < |r| ensures r[i].typeIdx <= r[j].typeIdx {
          if i < |prev.found| && j >= |prev.found| {
            assert prev.found[i] in prev.found;
          }
        }
      }
    }
  }

  /** Exactness: when every pattern compiles, the candidates of each slot
      `k` are exactly the engine's matches for that slot's pattern, one each
      and in the reported order; no candidate is made for anything else. */
  lemma {:induction false} DiscoverExact(types: seq<TokenType>, s: string, engine: Engine, n: nat, k: nat)
    requires n <= |types|
    requires Discover(types, s, engine, n).bad.None?
    ensures k < n ==> engine(types[k].pat, s).Some?
    ensures OfType(Discover(types, s, engine, n).found, k)
         == if k < n then FromMatches(k, s, engine(types[k].pat, s).value) else []
  {
    if n > 0 {
      var prev := Discover(types, s, engine, n - 1);
      assert prev.bad.None? && engine(types[n - 1].pat, s).Some?;
      var ms := engine(types[n - 1].pat, s).value;
      var added := FromMatches(n - 1, s, ms);
      assert Discover(types, s, engine, n).found == prev.found + added;
      DiscoverExact(types, s, engine, n - 1, k);
      OfTypeAppend(prev.found, added, k);
      OfTypeFromMatches(n - 1, s, ms, k);
      if k < n - 1 {
        assert OfType(added, k) == [];
      } else if k == n - 1 {
        assert OfType(prev.found, k) == [];
      }
    }
  }

  /** A pattern that does not compile stops the scan at its slot: every
      earlier pattern compiled, and exactly their candidates were found. */
  lemma {:induction false} DiscoverStopsAtBadPattern(types: seq<TokenType>, s: string, engine: Engine, n: nat)
    requires n <= |types|
    requires Discover(types, s, engine, n).bad.Some?
    ensures var r := Discover(types, s, engine, n);
      var b := r.bad.value;
      && b < n
      && engine(types[b].pat, s).None?
      && Discover(types, s, engine, b).bad.None?
      && r.found == Discover(types, s, engine, b).found
  {
    var prev := Discover(types, s, engine, n - 1);
    if prev.bad.Some? {
      DiscoverStopsAtBadPattern(types, s, engine, n - 1);
    }
  }

  /** Once a pattern has failed to compile, scanning further types changes
      nothing: the scan was abandoned. */
  lemma {:induction false} DiscoverStaysStopped(types: seq<TokenType>, s: string, engine: Engine, m: nat, n: nat)
    requires m <= n <= |types|
    requires Discover(types, s, engine, m).bad.Some?
    ensures Discover(types, s, engine, n) == Discover(types, s, engine, m)
    decreases n - m
  {
    if m < n {
      DiscoverStaysStopped(types, s, engine, m, n - 1);
    }
  }
}
