/**
 * The script end to end: the extracted results and pot entries are
 * reconciled, filtered to the played matches and counted into the
 * pot-versus-pot outcome matrix.
 */
module Pipeline {
  import opened Common
  import opened Tables
  import opened Reconcile
  import opened Outcomes
  import opened Matrix

  /** The played matches with both pots attached. */
  function PlayedMatches(results: seq<MatchRecord>, teams: seq<PotEntry>): seq<EnrichedMatch> {
    Played(Reconciled(results, teams))
  }

  /** `pot_results` for the whole script, given its two extracted tables. */
  function PotVsPot(results: seq<MatchRecord>, teams: seq<PotEntry>): (m: OutcomeMatrix)
    requires Aggregatable(PlayedMatches(results, teams))
    ensures Dense(m)
    ensures MatrixTotal(m) == 2 * |PlayedMatches(results, teams)|
  {
    OutcomesByPot(PlayedMatches(results, teams))
  }

  /** The number of results whose score passes the played filter. */
  function PlayedCount(results: seq<MatchRecord>): nat {
    if results == [] then 0
    else (if '-' in results[0].score then 1 else 0) + PlayedCount(results[1..])
  }

  /** Filtering keeps exactly the rows whose record passes the played filter. */
  lemma {:induction false} PlayedLength(rows: seq<EnrichedMatch>, results: seq<MatchRecord>)
    requires |rows| == |results|
    requires forall i :: 0 <= i < |rows| ==> rows[i].record == results[i]
    ensures |Played(rows)| == PlayedCount(results)
  {
    if rows != [] {
      PlayedLength(rows[1..], results[1..]);
    }
  }

  /**
   * With unique normalised team names every played result is counted
   * twice, once from each side.
   */
  lemma PotVsPotTotal(results: seq<MatchRecord>, teams: seq<PotEntry>)
    requires UniqueKeys(PotKeys(teams))
    requires Aggregatable(PlayedMatches(results, teams))
    ensures MatrixTotal(PotVsPot(results, teams)) == 2 * PlayedCount(results)
  {
    ReconciledUnique(results, teams);
    PlayedLength(Reconciled(results, teams), results);
  }

  /** Win/loss symmetry of the script's matrix. */
  lemma PotVsPotSymmetric(results: seq<MatchRecord>, teams: seq<PotEntry>, a: string, b: string)
    requires Aggregatable(PlayedMatches(results, teams))
    requires (a, b) in PotVsPot(results, teams).cells
    ensures (b, a) in PotVsPot(results, teams).cells
    ensures PotVsPot(results, teams).cells[(a, b)].win == PotVsPot(results, teams).cells[(b, a)].loss
    ensures PotVsPot(results, teams).cells[(a, b)].loss == PotVsPot(results, teams).cells[(b, a)].win
    ensures PotVsPot(results, teams).cells[(a, b)].draw == PotVsPot(results, teams).cells[(b, a)].draw
  {
    MatrixSymmetric(PlayedMatches(results, teams), a, b);
  }

  lemma CountPair(rs: seq<Perspective>, p: string, o: string)
    requires |rs| == 2
    ensures Count(rs, p, o) == Plus(Unit(rs[0], p, o), Unit(rs[1], p, o))
  {
    assert |rs[1..]| == 1 && rs[1..][0] == rs[1];
    assert rs[1..][1..] == [];
    assert Count(rs[1..][1..], p, o) == Tally(0, 0, 0);
    assert Count(rs[1..], p, o) == Unit(rs[1], p, o);
  }

  /** The pot labels of a single match between two different pots: both, in order. */
  lemma {:induction false} OneMatchPots(x: Perspective, a: string, b: string)
    requires a != b && x.pot == Some(a) && x.opponent == Some(b)
    ensures PotsKnown([x, Mirror(x)])
    ensures Pots([x, Mirror(x)]) == if Less(a, b) then [a, b] else [b, a]
  {
    var rs := [x, Mirror(x)];
    var want := if Less(a, b) then [a, b] else [b, a];
    LessTotal(a, b);
    assert StrictlySorted(want);
    forall y ensures y in Pots(rs) <==> y in want {
      assert rs[0].pot == Some(a) && rs[1].pot == Some(b);
    }
    SortedUnique(Pots(rs), want);
  }

  /** The matrix's labels and cells in terms of `combined`. */
  lemma OutcomesByPotCells(played: seq<EnrichedMatch>)
    requires Aggregatable(played)
    ensures PotsKnown(Combined(played))
    ensures OutcomesByPot(played).pots == Pots(Combined(played))
    ensures forall p, o :: p in OutcomesByPot(played).pots && o in OutcomesByPot(played).pots ==>
      (p, o) in OutcomesByPot(played).cells && OutcomesByPot(played).cells[(p, o)] == Count(Combined(played), p, o)
  {
    CombinedPotsKnown(played);
  }

  /**
   * A single match that the home side of pot `a` wins against pot `b`:
   * one win in (a, b), one loss in (b, a) and empty diagonal cells.
   */
  lemma OneHomeWin(m: MatchRecord, a: string, b: string)
    requires a != b && WellFormedScore(m.score) && HomeResult(m.score) == Win
    ensures Aggregatable([EnrichedMatch(m, Some(a), Some(b))])
    ensures OutcomesByPot([EnrichedMatch(m, Some(a), Some(b))]).pots == if Less(a, b) then [a, b] else [b, a]
    ensures OutcomesByPot([EnrichedMatch(m, Some(a), Some(b))]).cells[(a, b)] == Tally(1, 0, 0)
    ensures OutcomesByPot([EnrichedMatch(m, Some(a), Some(b))]).cells[(b, a)] == Tally(0, 0, 1)
    ensures OutcomesByPot([EnrichedMatch(m, Some(a), Some(b))]).cells[(a, a)] == Tally(0, 0, 0)
    ensures OutcomesByPot([EnrichedMatch(m, Some(a), Some(b))]).cells[(b, b)] == Tally(0, 0, 0)
  {
    var played := [EnrichedMatch(m, Some(a), Some(b))];
    var x := Perspective(Some(a), Some(b), Win);
    OneMatchCombined(m, a, b);
    OneMatchPots(x, a, b);
    var rs := Combined(played);
    OneWinCell(rs, a, b);
    OneLossCell(rs, a, b);
    OneDiagonalCell(rs, a, b, a);
    OneDiagonalCell(rs, a, b, b);
    OutcomesByPotCells(played);
  }

  lemma OneMatchCombined(m: MatchRecord, a: string, b: string)
    requires WellFormedScore(m.score) && HomeResult(m.score) == Win
    ensures Aggregatable([EnrichedMatch(m, Some(a), Some(b))])
    ensures Combined([EnrichedMatch(m, Some(a), Some(b))]) == [Perspective(Some(a), Some(b), Win), Perspective(Some(b), Some(a), Loss)]
  {
  }

  /** Whether `rs` is the two perspectives of one home win by pot `a` over pot `b`. */
  predicate IsOneWin(rs: seq<Perspective>, a: string, b: string) {
    |rs| == 2 && rs[0] == Perspective(Some(a), Some(b), Win) && rs[1] == Perspective(Some(b), Some(a), Loss)
  }

  lemma OneWinCell(rs: seq<Perspective>, a: string, b: string)
    requires a != b && IsOneWin(rs, a, b)
    ensures Count(rs, a, b) == Tally(1, 0, 0)
  {
    CountPair(rs, a, b);
  }

  lemma OneLossCell(rs: seq<Perspective>, a: string, b: string)
    requires a != b && IsOneWin(rs, a, b)
    ensures Count(rs, b, a) == Tally(0, 0, 1)
  {
    CountPair(rs, b, a);
  }

  lemma OneDiagonalCell(rs: seq<Perspective>, a: string, b: string, p: string)
    requires a != b && IsOneWin(rs, a, b)
    ensures Count(rs, p, p) == Tally(0, 0, 0)
  {
    CountPair(rs, p, p);
    assert a != p || b != p;
    assert Unit(rs[0], p, p) == Tally(0, 0, 0);
    assert Unit(rs[1], p, p) == Tally(0, 0, 0);
  }

  /** Real Madrid 3-1 Club Brugge is a home win. */
  lemma ThreeOneIsHomeWin()
    ensures WellFormedScore("3-1") && HomeResult("3-1") == Win
  {
    HomeResultOfDigits("3", "1");
    assert "3" + "-" + "1" == "3-1";
  }

  /** Real Madrid (Pot 1) 3-1 Club Brugge (Pot 2) alone: a win for Pot 1 against Pot 2 and a loss the other way. */
  lemma RealMadridClubBrugge(m: MatchRecord)
    requires m.score == "3-1"
    ensures Aggregatable([EnrichedMatch(m, Some("Pot 1"), Some("Pot 2"))])
    ensures OutcomesByPot([EnrichedMatch(m, Some("Pot 1"), Some("Pot 2"))]).pots == ["Pot 1", "Pot 2"]
    ensures OutcomesByPot([EnrichedMatch(m, Some("Pot 1"), Some("Pot 2"))]).cells[("Pot 1", "Pot 2")] == Tally(1, 0, 0)
    ensures OutcomesByPot([EnrichedMatch(m, Some("Pot 1"), Some("Pot 2"))]).cells[("Pot 2", "Pot 1")] == Tally(0, 0, 1)
  {
    ThreeOneIsHomeWin();
    PotOneBeforePotTwo();
    OneHomeWin(m, "Pot 1", "Pot 2");
  }

  lemma PotOneBeforePotTwo()
    ensures "Pot 1" != "Pot 2" && Less("Pot 1", "Pot 2")
  {
    assert "Pot 1"[4] != "Pot 2"[4];
    assert "Pot 1"[1..][1..][1..] == " 1" && "Pot 2"[1..][1..][1..] == " 2";
  }
}
