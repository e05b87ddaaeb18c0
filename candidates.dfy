/**
  The values the lexer works on: registered token types, the spans a pattern
  engine reports, candidate tokens and the tokens produced from them, with the
  three comparisons `CandidateToken` offers (by start, by length, overlap).
 */
module Candidates {

  /** A registered token type: its name and its regular expression. Two
      registrations of the same type are two slots of the registration list,
      so a candidate refers to its type by registration slot. */
  datatype TokenType = TokenType(name: string, pat: string)

  /** One match reported by the pattern engine: offset and length. */
  datatype Span = Span(pos: nat, len: nat)

  /** A candidate token: the registration slot of its type, the text it was
      matched in (the match refers to that text, not to a copy of the slice),
      and the offset and length of the match. Both parts are fixed when the
      candidate is made. */
  datatype Candidate = Candidate(typeIdx: nat, text: string, start: nat, len: nat)

  /** A produced token: its type and the matched slice handed to the type's
      conversion callback. */
  datatype Token = Token(kind: TokenType, lexeme: string)

  /** The offset one past the last character of the match. */
  function End(c: Candidate): nat
  {
    c.start + c.len
  }

  /** The match lies inside the text it refers to. */
  predicate InText(c: Candidate)
  {
    End(c) <= |c.text|
  }

  /** Position `p` is one of the characters the match covers. */
  predicate Covers(c: Candidate, p: int)
  {
    c.start <= p < End(c)
  }

  /** The candidates are grouped by registration slot, in registration order. */
  predicate Grouped(cs: seq<Candidate>)
  {
    forall i, j :: 0 <= i < j < |cs| ==> cs[i].typeIdx <= cs[j].typeIdx
  }

  /** `cmpPos`: `a` starts strictly before `b`. */
  predicate CmpPos(a: Candidate, b: Candidate)
  {
    a.start < b.start
  }

  /** `isLonger`: this match is strictly longer than the other one. */
  predicate IsLonger(c: Candidate, other: Candidate)
  {
    c.len > other.len
  }

  /** `intersects`: when the starts differ, the one that starts first must
      reach past the start of the other; equal starts always intersect. */
  predicate Intersects(c: Candidate, other: Candidate)
  {
    if c.start < other.start then End(c) > other.start
    else if c.start > other.start then End(other) > c.start
    else true
  }

  /** The strict ordering `cmpPos` hands to the list sort: irreflexive,
      asymmetric and transitive, and two candidates it cannot order start at
      the same offset. */
  lemma CmpPosStrictWeakOrder(a: Candidate, b: Candidate, c: Candidate)
    ensures !CmpPos(a, a)
    ensures CmpPos(a, b) ==> !CmpPos(b, a)
    ensures CmpPos(a, b) && CmpPos(b, c) ==> CmpPos(a, c)
    ensures !CmpPos(a, b) && !CmpPos(b, a) ==> a.start == b.start
  {
  }

  /** `isLonger` is strict: never reflexive and never both ways. */
  lemma IsLongerStrict(a: Candidate, b: Candidate)
    ensures !IsLonger(a, a)
    ensures IsLonger(a, b) ==> !IsLonger(b, a)
    ensures !IsLonger(a, b) && !IsLonger(b, a) ==> a.len == b.len
  {
  }

  /** `intersects` does not depend on the order of its arguments, and two
      matches that start at the same offset intersect whatever their lengths. */
  lemma IntersectsSymmetric(a: Candidate, b: Candidate)
    ensures Intersects(a, b) == Intersects(b, a)
    ensures a.start == b.start ==> Intersects(a, b)
  {
  }

  /** For two non-empty matches, `intersects` holds exactly when some
      character position lies in both half-open ranges `[start, start+len)`. */
  lemma IntersectsIffSharedPosition(a: Candidate, b: Candidate)
    requires a.len > 0 && b.len > 0
    ensures Intersects(a, b) <==> exists p :: Covers(a, p) && Covers(b, p)
  {
    if Intersects(a, b) {
      var p := if a.start < b.start then b.start else a.start;
      assert Covers(a, p) && Covers(b, p);
    }
  }

  /** Matches that touch exactly (one ends where the other starts) do not
      intersect unless they start at the same offset. */
  lemma TouchingDoNotIntersect(a: Candidate, b: Candidate)
    requires End(a) == b.start && a.start != b.start
    ensures !Intersects(a, b) && !Intersects(b, a)
  {
  }
}
