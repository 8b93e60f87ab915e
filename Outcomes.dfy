/**
 * From the reconciled table to the perspective records: the played-match
 * filter, `get_home_result`, the win/loss inversion and the concatenation
 * of the home and away perspectives.
 */
module Outcomes {
  import opened Common
  import opened Text
  import opened Tables
  import opened Reconcile

  datatype Outcome = Win | Loss | Draw

  /** One row of `combined`: a match seen from one side. */
  datatype Perspective = Perspective(pot: Option<string>, opponent: Option<string>, result: Outcome)

  /** The played filter `score.str.contains('-')`. */
  predicate IsPlayed(m: EnrichedMatch) {
    '-' in m.record.score
  }

  /** `results_df[results_df['score'].str.contains('-')]`, keeping row order. */
  function Played(rows: seq<EnrichedMatch>): (r: seq<EnrichedMatch>)
    ensures |r| <= |rows|
    ensures forall m :: m in r <==> m in rows && IsPlayed(m)
  {
    if rows == [] then []
    else (if IsPlayed(rows[0]) then [rows[0]] else []) + Played(rows[1..])
  }

  /** The filter keeps row order: filtering a concatenation concatenates the filtered parts. */
  lemma {:induction false} PlayedAppend(a: seq<EnrichedMatch>, b: seq<EnrichedMatch>)
    ensures Played(a + b) == Played(a) + Played(b)
  {
    if a == [] {
      assert a + b == b;
    } else {
      assert (a + b)[1..] == a[1..] + b;
      PlayedAppend(a[1..], b);
    }
  }

  /** `map(int, score.split('-'))` when it succeeds: exactly two pieces, both digit strings. */
  function ParseScore(score: string): (r: Option<(nat, nat)>)
    ensures r.Some? <==> '-' in score && ScoreShape(score, IndexOf(score, '-'))
    ensures r.Some? ==>
      var k := IndexOf(score, '-');
      r.value == (DigitsValue(score[..k]), DigitsValue(score[k + 1..]))
  {
    var parts := Split(score, '-');
    SplitShape(score, '-');
    if |parts| == 2 && IsDigits(parts[0]) && IsDigits(parts[1])
    then Some((DigitsValue(parts[0]), DigitsValue(parts[1])))
    else None
  }

  /** Digits before the hyphen at `k` and digits after it: a score with exactly one hyphen. */
  predicate ScoreShape(score: string, k: nat)
    requires k < |score|
  {
    IsDigits(score[..k]) && IsDigits(score[k + 1..])
  }

  predicate WellFormedScore(score: string) {
    ParseScore(score).Some?
  }

  /** `get_home_result`: win, loss or draw by comparing the home goals with the away goals. */
  function HomeResult(score: string): (r: Outcome)
    requires WellFormedScore(score)
    ensures var (h, a) := ParseScore(score).value;
      && (r == Win <==> h > a)
      && (r == Loss <==> h < a)
      && (r == Draw <==> h == a)
  {
    var (h, a) := ParseScore(score).value;
    if h > a then Win
    else if h < a then Loss
    else Draw
  }

  /** A score that `get_home_result` accepts always passes the played filter. */
  lemma WellFormedIsPlayed(score: string)
    requires WellFormedScore(score)
    ensures '-' in score
  {
  }

  /** A score "h-a" of two digit strings: the result compares the two numbers. */
  lemma HomeResultOfDigits(h: string, a: string)
    requires IsDigits(h) && IsDigits(a)
    ensures ParseScore(h + "-" + a) == Some((DigitsValue(h), DigitsValue(a)))
    ensures HomeResult(h + "-" + a) == Win <==> DigitsValue(h) > DigitsValue(a)
    ensures HomeResult(h + "-" + a) == Loss <==> DigitsValue(h) < DigitsValue(a)
    ensures HomeResult(h + "-" + a) == Draw <==> DigitsValue(h) == DigitsValue(a)
  {
    assert '-' !in h && '-' !in a;
    SplitTwo(h, a, '-');
    assert h + "-" + a == h + ['-'] + a;
  }

  /** The away side's view of a result: `{'win': 'loss', 'loss': 'win', 'draw': 'draw'}`. */
  function Invert(r: Outcome): (s: Outcome)
    ensures s == Win <==> r == Loss
    ensures s == Loss <==> r == Win
    ensures s == Draw <==> r == Draw
  {
    match r
    case Win => Loss
    case Loss => Win
    case Draw => Draw
  }

  lemma InvertInvolution(r: Outcome)
    ensures Invert(Invert(r)) == r
  {
  }

  /** The same match seen from the other side. */
  function Mirror(p: Perspective): (r: Perspective)
    ensures r.pot == p.opponent && r.opponent == p.pot
    ensures r.result == Win <==> p.result == Loss
    ensures r.result == Loss <==> p.result == Win
    ensures r.result == Draw <==> p.result == Draw
  {
    Perspective(p.opponent, p.pot, Invert(p.result))
  }

  lemma MirrorInvolution(p: Perspective)
    ensures Mirror(Mirror(p)) == p
  {
  }

  predicate AllWellFormed(played: seq<EnrichedMatch>) {
    forall i :: 0 <= i < |played| ==> WellFormedScore(played[i].record.score)
  }

  /** `home_df`: each played match from the home side. */
  function HomeView(played: seq<EnrichedMatch>): (r: seq<Perspective>)
    requires AllWellFormed(played)
    ensures |r| == |played|
  {
    seq(|played|, i requires 0 <= i < |played| =>
      Perspective(played[i].homePot, played[i].awayPot, HomeResult(played[i].record.score)))
  }

  /** `away_df`: each played match from the away side, with the result inverted. */
  function AwayView(played: seq<EnrichedMatch>): (r: seq<Perspective>)
    requires AllWellFormed(played)
    ensures |r| == |played|
  {
    seq(|played|, i requires 0 <= i < |played| =>
      Perspective(played[i].awayPot, played[i].homePot, Invert(HomeResult(played[i].record.score))))
  }

  /**
   * `combined`: the home perspectives followed by the away perspectives;
   * the second half mirrors the first row by row.
   */
  function Combined(played: seq<EnrichedMatch>): (r: seq<Perspective>)
    requires AllWellFormed(played)
    ensures |r| == 2 * |played|
    ensures forall i :: 0 <= i < |played| ==> r[|played| + i] == Mirror(r[i])
    ensures forall i :: 0 <= i < |played| ==>
      && r[i].pot == played[i].homePot
      && r[i].opponent == played[i].awayPot
      && r[i].result == HomeResult(played[i].record.score)
  {
    HomeView(played) + AwayView(played)
  }
}
