/**
 * The pot-versus-pot outcome matrix: outcomes counted per (pot, opponent)
 * pair (`groupby(...).size().unstack(fill_value=0)`), made dense over the
 * sorted distinct pot labels (`reindex(..., fill_value=0)`).
 */
module Matrix {
  import opened Common
  import opened Outcomes

  // ---------------------------------------------------------------------------
  // `sorted(...unique())` on strings
  // ---------------------------------------------------------------------------

  /** Python's `<` on `str`: lexicographic by code point, a proper prefix first. */
  predicate Less(a: string, b: string)
    ensures |a| < |b| && a == b[..|a|] ==> Less(a, b)
  {
    if a == [] then b != []
    else if b == [] then false
    else if a[0] != b[0] then a[0] < b[0]
    else Less(a[1..], b[1..])
  }

  /** The order is lexicographic: the first position where `a` and `b` differ decides. */
  lemma {:induction false} LessFirstDifference(a: string, b: string, k: nat)
    requires k < |a| && k < |b| && a[..k] == b[..k] && a[k] != b[k]
    ensures Less(a, b) <==> a[k] < b[k]
  {
    if k > 0 {
      assert a[0] == a[..k][0] == b[..k][0] == b[0];
      assert a[1..][..k - 1] == a[..k][1..] == b[..k][1..] == b[1..][..k - 1];
      LessFirstDifference(a[1..], b[1..], k - 1);
    }
  }

  lemma {:induction false} LessIrreflexive(a: string)
    ensures !Less(a, a)
  {
    if a != [] {
      LessIrreflexive(a[1..]);
    }
  }

  lemma {:induction false} LessTransitive(a: string, b: string, c: string)
    requires Less(a, b) && Less(b, c)
    ensures Less(a, c)
  {
    if a != [] && a[0] == b[0] && b[0] == c[0] {
      LessTransitive(a[1..], b[1..], c[1..]);
    }
  }

  lemma {:induction false} LessTotal(a: string, b: string)
    requires a != b
    ensures Less(a, b) || Less(b, a)
  {
    if a != [] && b != [] && a[0] == b[0] {
      assert a == [a[0]] + a[1..] && b == [b[0]] + b[1..];
      LessTotal(a[1..], b[1..]);
    }
  }

  lemma LessAsymmetric(a: string, b: string)
    requires Less(a, b)
    ensures !Less(b, a)
  {
    if Less(b, a) {
      LessTransitive(a, b, a);
      LessIrreflexive(a);
    }
  }

  /** Strictly increasing, hence free of duplicates. */
  predicate StrictlySorted(s: seq<string>) {
    forall i, j :: 0 <= i < j < |s| ==> Less(s[i], s[j])
  }

  lemma SortedDistinctElements(s: seq<string>)
    requires StrictlySorted(s)
    ensures forall i, j :: 0 <= i < j < |s| ==> s[i] != s[j]
  {
    forall i, j | 0 <= i < j < |s| ensures s[i] != s[j] {
      if s[i] == s[j] {
        LessIrreflexive(s[i]);
      }
    }
  }

  lemma SortedCons(x: string, s: seq<string>)
    requires StrictlySorted(s)
    requires forall k :: 0 <= k < |s| ==> Less(x, s[k])
    ensures StrictlySorted([x] + s)
  {
  }

  /** Inserts `x` into a strictly sorted list unless it is already there. */
  function Insert(x: string, s: seq<string>): (r: seq<string>)
    requires StrictlySorted(s)
    ensures StrictlySorted(r)
    ensures forall y :: y in r <==> y in s || y == x
  {
    if s == [] then [x]
    else if x == s[0] then s
    else if Less(x, s[0]) then
      assert forall k :: 0 <= k < |s| ==> Less(x, s[k]) by {
        forall k | 0 <= k < |s| ensures Less(x, s[k]) {
          if k > 0 { LessTransitive(x, s[0], s[k]); }
        }
      }
      SortedCons(x, s);
      [x] + s
    else
      LessTotal(x, s[0]);
      var rest := Insert(x, s[1..]);
      assert forall k :: 0 <= k < |rest| ==> Less(s[0], rest[k]) by {
        forall k | 0 <= k < |rest| ensures Less(s[0], rest[k]) {
          if rest[k] != x {
            assert rest[k] in rest;
            assert rest[k] in s[1..];
            var m :| 0 <= m < |s[1..]| && s[1..][m] == rest[k];
            assert s[m + 1] == rest[k];
          }
        }
      }
      SortedCons(s[0], rest);
      assert s == [s[0]] + s[1..];
      [s[0]] + rest
  }

  /** `sorted(set(xs))`: the distinct values of `xs`, in increasing order. */
  function SortedDistinct(xs: seq<string>): (r: seq<string>)
    ensures StrictlySorted(r)
    ensures forall y :: y in r <==> y in xs
  {
    if xs == [] then []
    else
      var r := Insert(xs[|xs| - 1], SortedDistinct(xs[..|xs| - 1]));
      assert xs == xs[..|xs| - 1] + [xs[|xs| - 1]];
      r
  }

  /** The head of a strictly sorted list is below every other element. */
  lemma SortedHead(s: seq<string>, y: string)
    requires StrictlySorted(s) && y in s
    ensures y == s[0] || Less(s[0], y)
  {
  }

  lemma SameMembersSameEmptiness(s: seq<string>, t: seq<string>)
    requires forall y :: y in s <==> y in t
    ensures s == [] <==> t == []
  {
    if s != [] {
      assert s[0] in t;
    }
    if t != [] {
      assert t[0] in s;
    }
  }

  /** There is only one strictly sorted list of a given set of strings, so the order is Python's. */
  lemma {:induction false} SortedUnique(s: seq<string>, t: seq<string>)
    requires StrictlySorted(s) && StrictlySorted(t)
    requires forall y :: y in s <==> y in t
    ensures s == t
  {
    SameMembersSameEmptiness(s, t);
    if s != [] {
      assert s[0] in s && t[0] in t;
      SortedHead(t, s[0]);
      SortedHead(s, t[0]);
      if Less(t[0], s[0]) {
        LessAsymmetric(t[0], s[0]);
      }
      forall y ensures y in s[1..] <==> y in t[1..] {
        LessIrreflexive(y);
        if y in s[1..] {
          var k :| 0 <= k < |s[1..]| && s[1..][k] == y;
          assert Less(s[0], s[k + 1]);
          assert y in t;
        }
        if y in t[1..] {
          var k :| 0 <= k < |t[1..]| && t[1..][k] == y;
          assert Less(t[0], t[k + 1]);
          assert y in s;
        }
      }
      SortedUnique(s[1..], t[1..]);
      assert s == [s[0]] + s[1..] && t == [t[0]] + t[1..];
    }
  }

  // ---------------------------------------------------------------------------
  // Counting
  // ---------------------------------------------------------------------------

  /** One cell of the matrix: the number of wins, draws and losses. */
  datatype Tally = Tally(win: nat, draw: nat, loss: nat)

  function Total(t: Tally): nat {
    t.win + t.draw + t.loss
  }

  function Plus(a: Tally, b: Tally): Tally {
    Tally(a.win + b.win, a.draw + b.draw, a.loss + b.loss)
  }

  /** The same cell read from the opponent's side. */
  function Flip(t: Tally): Tally {
    Tally(t.loss, t.draw, t.win)
  }

  /** What one perspective record adds to the cell `(p, o)`. */
  function Unit(x: Perspective, p: string, o: string): Tally {
    if x.pot == Some(p) && x.opponent == Some(o) then
      match x.result
      case Win => Tally(1, 0, 0)
      case Draw => Tally(0, 1, 0)
      case Loss => Tally(0, 0, 1)
    else Tally(0, 0, 0)
  }

  /** The cell `(p, o)`: how many records have that pot, that opponent and each result. */
  function Count(rs: seq<Perspective>, p: string, o: string): Tally {
    if rs == [] then Tally(0, 0, 0)
    else Plus(Unit(rs[0], p, o), Count(rs[1..], p, o))
  }

  /** A cell counts each record at most once, so its total is at most the number of records. */
  lemma {:induction false} CountBound(rs: seq<Perspective>, p: string, o: string)
    ensures Total(Count(rs, p, o)) <= |rs|
  {
    if rs != [] {
      var tl := rs[1..];
      assert |tl| == |rs| - 1;
      CountBound(tl, p, o);
      CountCons(rs, p, o);
      assert Hit(rs[0], p, o) <= 1;
    }
  }

  /** Each count is the number of occurrences of the matching record. */
  lemma {:induction false} CountOccurrences(rs: seq<Perspective>, p: string, o: string)
    ensures Count(rs, p, o).win == multiset(rs)[Perspective(Some(p), Some(o), Win)]
    ensures Count(rs, p, o).draw == multiset(rs)[Perspective(Some(p), Some(o), Draw)]
    ensures Count(rs, p, o).loss == multiset(rs)[Perspective(Some(p), Some(o), Loss)]
  {
    if rs != [] {
      var x, tl := rs[0], rs[1..];
      assert rs == [x] + tl;
      assert multiset(rs) == multiset{x} + multiset(tl);
      CountOccurrences(tl, p, o);
      UnitOccurrences(x, p, o);
      assert Count(rs, p, o) == Plus(Unit(x, p, o), Count(tl, p, o));
    }
  }

  lemma UnitOccurrences(x: Perspective, p: string, o: string)
    ensures Unit(x, p, o).win == multiset{x}[Perspective(Some(p), Some(o), Win)]
    ensures Unit(x, p, o).draw == multiset{x}[Perspective(Some(p), Some(o), Draw)]
    ensures Unit(x, p, o).loss == multiset{x}[Perspective(Some(p), Some(o), Loss)]
  {
  }

  lemma {:induction false} CountAppend(a: seq<Perspective>, b: seq<Perspective>, p: string, o: string)
    ensures Count(a + b, p, o) == Plus(Count(a, p, o), Count(b, p, o))
  {
    if a == [] {
      assert a + b == b;
    } else {
      assert (a + b)[1..] == a[1..] + b;
      CountAppend(a[1..], b, p, o);
    }
  }

  function MirrorAll(xs: seq<Perspective>): (r: seq<Perspective>)
    ensures |r| == |xs|
  {
    seq(|xs|, i requires 0 <= i < |xs| => Mirror(xs[i]))
  }

  /** Mirroring every record turns the cell `(p, o)` into the flipped cell `(o, p)`. */
  lemma {:induction false} CountMirror(xs: seq<Perspective>, p: string, o: string)
    ensures Count(MirrorAll(xs), o, p) == Flip(Count(xs, p, o))
  {
    if xs != [] {
      var ms, tl := MirrorAll(xs), MirrorAll(xs[1..]);
      assert ms[0] == Mirror(xs[0]);
      assert ms[1..] == tl;
      CountMirror(xs[1..], p, o);
      UnitMirror(xs[0], p, o);
      var u, c := Unit(xs[0], p, o), Count(xs[1..], p, o);
      assert Count(xs, p, o) == Plus(u, c);
      assert Count(ms, o, p) == Plus(Flip(u), Flip(c));
      FlipPlus(u, c);
    }
  }

  lemma FlipPlus(a: Tally, b: Tally)
    ensures Flip(Plus(a, b)) == Plus(Flip(a), Flip(b))
  {
  }

  lemma UnitMirror(x: Perspective, p: string, o: string)
    ensures Unit(Mirror(x), o, p) == Flip(Unit(x, p, o))
  {
  }

  /** A record table followed by its mirror image: each cell is the cell plus the flipped transposed cell. */
  lemma CountWithMirror(xs: seq<Perspective>, a: string, b: string)
    ensures Count(xs + MirrorAll(xs), a, b) == Plus(Count(xs, a, b), Flip(Count(xs, b, a)))
  {
    CountAppend(xs, MirrorAll(xs), a, b);
    CountMirror(xs, b, a);
  }

  lemma PlusFlip(x: Tally, y: Tally)
    ensures Plus(x, Flip(y)) == Flip(Plus(y, Flip(x)))
  {
  }

  /** In a table of records followed by their mirrors, cell `(a, b)` is cell `(b, a)` flipped. */
  lemma CountSymmetric(xs: seq<Perspective>, a: string, b: string)
    ensures Count(xs + MirrorAll(xs), a, b) == Flip(Count(xs + MirrorAll(xs), b, a))
  {
    CountWithMirror(xs, a, b);
    CountWithMirror(xs, b, a);
    PlusFlip(Count(xs, a, b), Count(xs, b, a));
  }

  /** `combined` is the home view followed by its mirror image. */
  lemma CombinedMirrored(played: seq<Reconcile.EnrichedMatch>)
    requires AllWellFormed(played)
    ensures Combined(played) == HomeView(played) + MirrorAll(HomeView(played))
  {
  }

  // ---------------------------------------------------------------------------
  // The dense matrix
  // ---------------------------------------------------------------------------

  /** `pot_results` after the reindex: the sorted pot labels and one cell per ordered pair of them. */
  datatype OutcomeMatrix = OutcomeMatrix(pots: seq<string>, cells: map<(string, string), Tally>)

  /** Every record has a pot and an opponent: what the aggregation needs of its input. */
  predicate PotsKnown(rs: seq<Perspective>) {
    forall k :: 0 <= k < |rs| ==> rs[k].pot.Some? && rs[k].opponent.Some?
  }

  /** The `pot` column of `combined`. */
  function PotColumn(rs: seq<Perspective>): (r: seq<string>)
    requires PotsKnown(rs)
    ensures |r| == |rs|
    ensures forall k :: 0 <= k < |rs| ==> Some(r[k]) == rs[k].pot
  {
    seq(|rs|, k requires 0 <= k < |rs| => rs[k].pot.value)
  }

  /** `pots = sorted(combined['pot'].unique())`. */
  function Pots(rs: seq<Perspective>): (ps: seq<string>)
    requires PotsKnown(rs)
    ensures StrictlySorted(ps)
    ensures forall p :: p in ps <==> exists k :: 0 <= k < |rs| && rs[k].pot == Some(p)
  {
    var col := PotColumn(rs);
    var ps := SortedDistinct(col);
    assert forall p :: p in col <==> exists k :: 0 <= k < |rs| && rs[k].pot == Some(p) by {
      forall p ensures p in col <==> exists k :: 0 <= k < |rs| && rs[k].pot == Some(p) {
        if p in col {
          var k :| 0 <= k < |col| && col[k] == p;
          assert rs[k].pot == Some(p);
        }
      }
    }
    ps
  }

  /** The grouped counts reindexed over `pots x pots`, a missing combination reading as zero. */
  function PotResults(rs: seq<Perspective>): (m: OutcomeMatrix)
    requires PotsKnown(rs)
    ensures m.pots == Pots(rs)
    ensures forall p, o :: (p, o) in m.cells <==> p in m.pots && o in m.pots
    ensures forall p, o :: (p, o) in m.cells ==> m.cells[(p, o)] == Count(rs, p, o)
  {
    OutcomeMatrix(Pots(rs), Cells(rs, Pots(rs)))
  }

  /** The count of every ordered pair of labels drawn from `ps`. */
  function Cells(rs: seq<Perspective>, ps: seq<string>): (c: map<(string, string), Tally>)
    ensures forall p, o :: (p, o) in c <==> p in ps && o in ps
    ensures forall p, o :: (p, o) in c ==> c[(p, o)] == Count(rs, p, o)
  {
    var keys := set p, o | p in ps && o in ps :: (p, o);
    map k | k in keys :: Count(rs, k.0, k.1)
  }

  /** Every ordered pair of pot labels has a cell. */
  predicate Dense(m: OutcomeMatrix) {
    forall p, o :: p in m.pots && o in m.pots ==> (p, o) in m.cells
  }

  function RowTotal(m: OutcomeMatrix, p: string, os: seq<string>): nat
    requires forall o :: o in os ==> (p, o) in m.cells
  {
    if os == [] then 0 else Total(m.cells[(p, os[0])]) + RowTotal(m, p, os[1..])
  }

  function GridTotal(m: OutcomeMatrix, ps: seq<string>, os: seq<string>): nat
    requires forall p, o :: p in ps && o in os ==> (p, o) in m.cells
  {
    if ps == [] then 0 else RowTotal(m, ps[0], os) + GridTotal(m, ps[1..], os)
  }

  /** The sum of all counts in the matrix. */
  function MatrixTotal(m: OutcomeMatrix): nat
    requires Dense(m)
  {
    GridTotal(m, m.pots, m.pots)
  }

  predicate Distinct(s: seq<string>) {
    forall i, j :: 0 <= i < j < |s| ==> s[i] != s[j]
  }

  function RowCount(rs: seq<Perspective>, p: string, os: seq<string>): nat {
    if os == [] then 0 else Total(Count(rs, p, os[0])) + RowCount(rs, p, os[1..])
  }

  function GridCount(rs: seq<Perspective>, ps: seq<string>, os: seq<string>): nat {
    if ps == [] then 0 else RowCount(rs, ps[0], os) + GridCount(rs, ps[1..], os)
  }

  /** 1 if the record belongs to the cell `(p, o)`. */
  function Hit(x: Perspective, p: string, o: string): nat {
    if x.pot == Some(p) && x.opponent == Some(o) then 1 else 0
  }

  function RowHits(x: Perspective, p: string, os: seq<string>): nat {
    if os == [] then 0 else Hit(x, p, os[0]) + RowHits(x, p, os[1..])
  }

  function GridHits(x: Perspective, ps: seq<string>, os: seq<string>): nat {
    if ps == [] then 0 else RowHits(x, ps[0], os) + GridHits(x, ps[1..], os)
  }

  lemma CountCons(rs: seq<Perspective>, p: string, o: string)
    requires rs != []
    ensures Total(Count(rs, p, o)) == Hit(rs[0], p, o) + Total(Count(rs[1..], p, o))
  {
    var u, c := Unit(rs[0], p, o), Count(rs[1..], p, o);
    assert Count(rs, p, o) == Plus(u, c);
    assert Total(u) == Hit(rs[0], p, o);
  }

  lemma {:induction false} RowCountCons(rs: seq<Perspective>, p: string, os: seq<string>)
    requires rs != []
    ensures RowCount(rs, p, os) == RowHits(rs[0], p, os) + RowCount(rs[1..], p, os)
  {
    if os != [] {
      CountCons(rs, p, os[0]);
      RowCountCons(rs, p, os[1..]);
    }
  }

  lemma {:induction false} GridCountCons(rs: seq<Perspective>, ps: seq<string>, os: seq<string>)
    requires rs != []
    ensures GridCount(rs, ps, os) == GridHits(rs[0], ps, os) + GridCount(rs[1..], ps, os)
  {
    if ps != [] {
      RowCountCons(rs, ps[0], os);
      GridCountCons(rs, ps[1..], os);
    }
  }

  lemma {:induction false} RowCountEmpty(p: string, os: seq<string>)
    ensures RowCount([], p, os) == 0
  {
    if os != [] {
      RowCountEmpty(p, os[1..]);
    }
  }

  lemma {:induction false} GridCountEmpty(ps: seq<string>, os: seq<string>)
    ensures GridCount([], ps, os) == 0
  {
    if ps != [] {
      RowCountEmpty(ps[0], os);
      GridCountEmpty(ps[1..], os);
    }
  }

  lemma {:induction false} RowHitsOnce(x: Perspective, p: string, os: seq<string>)
    requires Distinct(os)
    ensures RowHits(x, p, os) == if x.pot == Some(p) && x.opponent.Some? && x.opponent.value in os then 1 else 0
  {
    if os != [] {
      RowHitsOnce(x, p, os[1..]);
      assert os == [os[0]] + os[1..];
    }
  }

  lemma {:induction false} GridHitsOnce(x: Perspective, ps: seq<string>, os: seq<string>)
    requires Distinct(ps) && Distinct(os)
    ensures GridHits(x, ps, os) ==
      if x.pot.Some? && x.pot.value in ps && x.opponent.Some? && x.opponent.value in os then 1 else 0
  {
    if ps != [] {
      RowHitsOnce(x, ps[0], os);
      GridHitsOnce(x, ps[1..], os);
      assert ps == [ps[0]] + ps[1..];
    }
  }

  /** Each record with its pot and opponent among the labels is counted exactly once. */
  lemma {:induction false} GridCountAll(rs: seq<Perspective>, ps: seq<string>, os: seq<string>)
    requires Distinct(ps) && Distinct(os) && PotsKnown(rs)
    requires forall k :: 0 <= k < |rs| ==> rs[k].pot.value in ps && rs[k].opponent.value in os
    ensures GridCount(rs, ps, os) == |rs|
  {
    if rs == [] {
      GridCountEmpty(ps, os);
    } else {
      GridCountAll(rs[1..], ps, os);
      GridHitsOnce(rs[0], ps, os);
      GridCountCons(rs, ps, os);
    }
  }

  lemma {:induction false} RowTotalCount(m: OutcomeMatrix, rs: seq<Perspective>, p: string, os: seq<string>)
    requires forall o :: o in os ==> (p, o) in m.cells && m.cells[(p, o)] == Count(rs, p, o)
    ensures RowTotal(m, p, os) == RowCount(rs, p, os)
  {
    if os != [] {
      RowTotalCount(m, rs, p, os[1..]);
    }
  }

  lemma {:induction false} GridTotalCount(m: OutcomeMatrix, rs: seq<Perspective>, ps: seq<string>, os: seq<string>)
    requires forall p, o :: p in ps && o in os ==> (p, o) in m.cells && m.cells[(p, o)] == Count(rs, p, o)
    ensures GridTotal(m, ps, os) == GridCount(rs, ps, os)
  {
    if ps != [] {
      RowTotalCount(m, rs, ps[0], os);
      GridTotalCount(m, rs, ps[1..], os);
    }
  }

  /** Every opponent label is also a pot label, so the reindex drops no record. */
  predicate OpponentsArePots(rs: seq<Perspective>) {
    forall k :: 0 <= k < |rs| ==> rs[k].opponent.Some? && rs[k].opponent in PotLabels(rs)
  }

  function PotLabels(rs: seq<Perspective>): set<Option<string>> {
    set j | 0 <= j < |rs| :: rs[j].pot
  }

  /** Both labels of every record are among the pot labels. */
  lemma PotsCover(rs: seq<Perspective>, k: nat)
    requires PotsKnown(rs) && OpponentsArePots(rs) && k < |rs|
    ensures rs[k].pot.value in Pots(rs) && rs[k].opponent.value in Pots(rs)
  {
    assert rs[k].opponent in PotLabels(rs);
    var j :| 0 <= j < |rs| && rs[j].pot == rs[k].opponent;
    PotMember(rs, k, rs[k].pot.value);
    PotMember(rs, j, rs[k].opponent.value);
  }

  lemma PotMember(rs: seq<Perspective>, k: nat, p: string)
    requires PotsKnown(rs) && k < |rs| && rs[k].pot == Some(p)
    ensures p in Pots(rs)
  {
  }

  /** The matrix is dense and its counts add up to the number of records. */
  lemma MatrixConservation(rs: seq<Perspective>)
    requires PotsKnown(rs) && OpponentsArePots(rs)
    ensures Dense(PotResults(rs))
    ensures MatrixTotal(PotResults(rs)) == |rs|
  {
    var m := PotResults(rs);
    var ps := m.pots;
    assert Dense(m);
    GridTotalCount(m, rs, ps, ps);
    assert MatrixTotal(m) == GridCount(rs, ps, ps);
    CountAllPots(rs);
  }

  /** Over the pot labels, the grid of counts adds up to the number of records. */
  lemma CountAllPots(rs: seq<Perspective>)
    requires PotsKnown(rs) && OpponentsArePots(rs)
    ensures GridCount(rs, Pots(rs), Pots(rs)) == |rs|
  {
    RecordsCovered(rs);
    GridCountAll(rs, Pots(rs), Pots(rs));
  }

  /** The pot labels are distinct and hold both labels of every record. */
  lemma RecordsCovered(rs: seq<Perspective>)
    requires PotsKnown(rs) && OpponentsArePots(rs)
    ensures Distinct(Pots(rs))
    ensures forall k :: 0 <= k < |rs| ==> rs[k].pot.value in Pots(rs) && rs[k].opponent.value in Pots(rs)
  {
    SortedDistinctElements(Pots(rs));
    forall k | 0 <= k < |rs| ensures rs[k].pot.value in Pots(rs) && rs[k].opponent.value in Pots(rs) {
      PotsCover(rs, k);
    }
  }

  // ---------------------------------------------------------------------------
  // The matrix of the played matches
  // ---------------------------------------------------------------------------

  /** What the aggregation needs of the played matches: scores it can parse and pots on both sides. */
  predicate Aggregatable(played: seq<Reconcile.EnrichedMatch>) {
    && AllWellFormed(played)
    && forall i :: 0 <= i < |played| ==> played[i].homePot.Some? && played[i].awayPot.Some?
  }

  lemma CombinedPotsKnown(played: seq<Reconcile.EnrichedMatch>)
    requires Aggregatable(played)
    ensures PotsKnown(Combined(played)) && OpponentsArePots(Combined(played))
  {
    var rs := Combined(played);
    var n := |played|;
    forall k | 0 <= k < |rs| ensures rs[k].pot.Some? && rs[k].opponent.Some? && rs[k].opponent in PotLabels(rs)
    {
      var j := if k < n then n + k else k - n;
      if k < n {
        assert rs[j] == Mirror(rs[k]);
      } else {
        assert rs[k] == Mirror(rs[j]);
      }
      assert rs[j].pot == rs[k].opponent;
      assert rs[j].pot in PotLabels(rs);
    }
  }

  /** `pot_results` for the played matches. */
  function OutcomesByPot(played: seq<Reconcile.EnrichedMatch>): (m: OutcomeMatrix)
    requires Aggregatable(played)
    ensures Dense(m)
    ensures MatrixTotal(m) == 2 * |played|
  {
    CombinedPotsKnown(played);
    MatrixConservation(Combined(played));
    PotResults(Combined(played))
  }

  /** Win/loss symmetry: cell (a, b) read from b's side is cell (b, a). */
  lemma MatrixSymmetric(played: seq<Reconcile.EnrichedMatch>, a: string, b: string)
    requires Aggregatable(played)
    requires (a, b) in OutcomesByPot(played).cells
    ensures (b, a) in OutcomesByPot(played).cells
    ensures OutcomesByPot(played).cells[(a, b)].win == OutcomesByPot(played).cells[(b, a)].loss
    ensures OutcomesByPot(played).cells[(a, b)].loss == OutcomesByPot(played).cells[(b, a)].win
    ensures OutcomesByPot(played).cells[(a, b)].draw == OutcomesByPot(played).cells[(b, a)].draw
  {
    CombinedMirrored(played);
    CountSymmetric(HomeView(played), a, b);
  }
}
