/**
 * The two left merges that attach a pot to the home and the away side of
 * each match record, keyed on normalised team names. Like a pandas
 * `merge(how='left')`, a left row with several matching right rows yields
 * one output row per match, and a left row with none yields one row whose
 * pot is missing.
 */
module Reconcile {
  import opened Common
  import opened Names
  import opened Tables

  /** One row of `teams_df[['team_norm', 'pot']]`. */
  datatype PotKey = PotKey(teamNorm: string, pot: string)

  /** A match record with the pots found for its two sides. */
  datatype EnrichedMatch = EnrichedMatch(record: MatchRecord, homePot: Option<string>, awayPot: Option<string>)

  /** The right-hand join table built from the pot entries. */
  function PotKeys(teams: seq<PotEntry>): (r: seq<PotKey>)
    ensures |r| == |teams|
    ensures forall k :: 0 <= k < |r| ==> r[k] == PotKey(NormalizeTeam(Some(teams[k].team)), teams[k].pot)
  {
    seq(|teams|, k requires 0 <= k < |teams| => PotKey(NormalizeTeam(Some(teams[k].team)), teams[k].pot))
  }

  /** The pots of every right row whose key equals `key`, in right-table order. */
  function Matches(key: string, right: seq<PotKey>): (r: seq<string>)
    ensures |r| <= |right|
    ensures (forall k :: 0 <= k < |right| ==> right[k].teamNorm != key) <==> r == []
  {
    if right == [] then []
    else (if right[0].teamNorm == key then [right[0].pot] else []) + Matches(key, right[1..])
  }

  /** `Matches` distributes over concatenation of the right table, so it keeps right-table order. */
  lemma {:induction false} MatchesAppend(key: string, a: seq<PotKey>, b: seq<PotKey>)
    ensures Matches(key, a + b) == Matches(key, a) + Matches(key, b)
  {
    if a == [] {
      assert a + b == b;
    } else {
      var ab := a + b;
      var head: seq<string> := if a[0].teamNorm == key then [a[0].pot] else [];
      var x, y := Matches(key, a[1..]), Matches(key, b);
      assert ab[0] == a[0] && ab[1..] == a[1..] + b;
      MatchesCons(key, a);
      MatchesCons(key, ab);
      MatchesAppend(key, a[1..], b);
      AppendAssoc(head, x, y);
      var m := Matches(key, ab);
      assert m == head + (x + y);
      assert Matches(key, a) == head + x;
    }
  }

  lemma MatchesCons(key: string, right: seq<PotKey>)
    requires right != []
    ensures Matches(key, right) == (if right[0].teamNorm == key then [right[0].pot] else []) + Matches(key, right[1..])
  {
  }

  /** A single right row contributes its pot exactly when it has the key. */
  lemma MatchesOne(key: string, row: PotKey)
    ensures Matches(key, [row]) == if row.teamNorm == key then [row.pot] else []
  {
    assert [row][1..] == [];
  }

  /** How many right rows have this key. */
  function CountKey(key: string, right: seq<PotKey>): nat {
    if right == [] then 0
    else (if right[0].teamNorm == key then 1 else 0) + CountKey(key, right[1..])
  }

  /** How many right rows are exactly `PotKey(key, pot)`. */
  function CountEntry(key: string, pot: string, right: seq<PotKey>): nat {
    if right == [] then 0
    else (if right[0] == PotKey(key, pot) then 1 else 0) + CountEntry(key, pot, right[1..])
  }

  /** `Matches` has one value per right row with the key. */
  lemma {:induction false} MatchesCount(key: string, right: seq<PotKey>)
    ensures |Matches(key, right)| == CountKey(key, right)
  {
    if right != [] {
      MatchesCount(key, right[1..]);
    }
  }

  /** Every right row with the key contributes its pot. */
  lemma {:induction false} MatchesComplete(key: string, right: seq<PotKey>, k: nat)
    requires k < |right| && right[k].teamNorm == key
    ensures right[k].pot in Matches(key, right)
  {
    var head: seq<string> := if right[0].teamNorm == key then [right[0].pot] else [];
    assert Matches(key, right) == head + Matches(key, right[1..]);
    if k > 0 {
      assert right[1..][k - 1] == right[k];
      MatchesComplete(key, right[1..], k - 1);
    }
  }

  /** Each pot occurs in `Matches` once per right row `PotKey(key, pot)`. */
  lemma {:induction false} MatchesMultiplicity(key: string, right: seq<PotKey>, pot: string)
    ensures multiset(Matches(key, right))[pot] == CountEntry(key, pot, right)
  {
    if right != [] {
      var head: seq<string> := if right[0].teamNorm == key then [right[0].pot] else [];
      var tail := Matches(key, right[1..]);
      assert Matches(key, right) == head + tail;
      MatchesMultiplicity(key, right[1..], pot);
      assert multiset(head + tail) == multiset(head) + multiset(tail);
    }
  }

  /** The pot column values one left row receives: one per match, or a single missing value. */
  function Attached(key: string, right: seq<PotKey>): (r: seq<Option<string>>)
    ensures |r| >= 1
    ensures CountKey(key, right) == 0 <==> r == [None]
    ensures CountKey(key, right) > 0 ==> |r| == |Matches(key, right)| == CountKey(key, right)
    ensures CountKey(key, right) > 0 ==> forall k :: 0 <= k < |r| ==> r[k] == Some(Matches(key, right)[k])
  {
    var ms := Matches(key, right);
    MatchesCount(key, right);
    if ms == [] then [None]
    else
      var r := seq(|ms|, k requires 0 <= k < |ms| => Some(ms[k]));
      assert r[0] != None;
      r
  }

  /** `(l, Some(p))` for each value `p` of `ms`, in order. */
  function Tagged<L>(l: L, ms: seq<string>): (r: seq<(L, Option<string>)>)
    ensures |r| == |ms|
  {
    seq(|ms|, k requires 0 <= k < |ms| => (l, Some(ms[k])))
  }

  lemma {:induction false} TaggedMultiset<L>(l: L, ms: seq<string>, p: string)
    ensures multiset(Tagged(l, ms))[(l, Some(p))] == multiset(ms)[p]
  {
    if ms != [] {
      var t := Tagged(l, ms);
      assert t == [t[0]] + Tagged(l, ms[1..]);
      assert ms == [ms[0]] + ms[1..];
      TaggedMultiset(l, ms[1..], p);
    }
  }

  /** A left merge of `left` with `right` on `key(row) == teamNorm`, keeping left order. */
  function LeftJoin<L>(left: seq<L>, key: L -> string, right: seq<PotKey>): (r: seq<(L, Option<string>)>)
    ensures |r| >= |left|
  {
    if left == [] then []
    else JoinRows(left[0], key, right) + LeftJoin(left[1..], key, right)
  }

  /** The output rows of one left row `l`: `l` paired with each value `Attached` gives it. */
  function JoinRows<L>(l: L, key: L -> string, right: seq<PotKey>): (r: seq<(L, Option<string>)>)
    ensures |r| == |Attached(key(l), right)| >= 1
    ensures forall k :: 0 <= k < |r| ==> r[k] == (l, Attached(key(l), right)[k])
  {
    var ps := Attached(key(l), right);
    seq(|ps|, k requires 0 <= k < |ps| => (l, ps[k]))
  }

  /** The number of rows the merge gives `left`: one per matching right row, and at least one per left row. */
  function JoinSize<L>(left: seq<L>, key: L -> string, right: seq<PotKey>): nat {
    if left == [] then 0
    else
      var n := CountKey(key(left[0]), right);
      (if n == 0 then 1 else n) + JoinSize(left[1..], key, right)
  }

  lemma {:induction false} LeftJoinLength<L>(left: seq<L>, key: L -> string, right: seq<PotKey>)
    ensures |LeftJoin(left, key, right)| == JoinSize(left, key, right)
  {
    if left != [] {
      LeftJoinLength(left[1..], key, right);
    }
  }

  /** The merge keeps left order: merging `a + b` is merging `a`, then `b`. */
  lemma {:induction false} LeftJoinAppend<L>(a: seq<L>, b: seq<L>, key: L -> string, right: seq<PotKey>)
    ensures LeftJoin(a + b, key, right) == LeftJoin(a, key, right) + LeftJoin(b, key, right)
  {
    if a == [] {
      assert a + b == b;
    } else {
      assert (a + b)[0] == a[0];
      assert (a + b)[1..] == a[1..] + b;
      LeftJoinAppend(a[1..], b, key, right);
      var head := JoinRows(a[0], key, right);
      assert LeftJoin(a + b, key, right) == head + LeftJoin(a[1..] + b, key, right);
      assert LeftJoin(a, key, right) == head + LeftJoin(a[1..], key, right);
      AppendAssoc(head, LeftJoin(a[1..], key, right), LeftJoin(b, key, right));
    }
  }

  /**
   * The rows one left row `l` receives: a single row with a missing pot
   * when no right row has its key, otherwise one row per right row with its
   * key, so that `(l, Some(p))` appears once per right row `PotKey(key(l), p)`.
   */
  lemma LeftJoinRow<L>(l: L, key: L -> string, right: seq<PotKey>, p: string)
    ensures CountKey(key(l), right) == 0 <==> LeftJoin([l], key, right) == [(l, None)]
    ensures CountKey(key(l), right) > 0 ==> |LeftJoin([l], key, right)| == CountKey(key(l), right)
    ensures forall k :: 0 <= k < |LeftJoin([l], key, right)| ==> LeftJoin([l], key, right)[k].0 == l
    ensures multiset(LeftJoin([l], key, right))[(l, Some(p))] == CountEntry(key(l), p, right)
  {
    var head := JoinRows(l, key, right);
    assert [l][1..] == [];
    assert LeftJoin([l], key, right) == head + [];
    assert head + [] == head;
    var ms := Matches(key(l), right);
    MatchesCount(key(l), right);
    MatchesMultiplicity(key(l), right, p);
    if ms == [] {
      assert head == [(l, None)];
    } else {
      assert head == Tagged(l, ms);
      TaggedMultiset(l, ms, p);
    }
  }

  /** What one left row `x` contributes of the pair `(l, Some(p))`. */
  lemma RowContribution<L>(x: L, key: L -> string, right: seq<PotKey>, l: L, p: string)
    ensures multiset(LeftJoin([x], key, right))[(l, Some(p))] == if x == l then CountEntry(key(l), p, right) else 0
  {
    LeftJoinRow(x, key, right, p);
    if x != l {
      assert (l, Some(p)) !in LeftJoin([x], key, right);
    }
  }

  lemma DistributeOne(m: nat, c: nat)
    ensures (1 + m) * c == c + m * c
  {
  }

  /**
   * The merge in general: `(l, Some(p))` appears once for every pair of a
   * left row equal to `l` and a right row `PotKey(key(l), p)`.
   */
  lemma {:induction false} LeftJoinMultiplicity<L>(left: seq<L>, key: L -> string, right: seq<PotKey>, l: L, p: string)
    ensures multiset(LeftJoin(left, key, right))[(l, Some(p))] == multiset(left)[l] * CountEntry(key(l), p, right)
  {
    if left != [] {
      var x, rest := left[0], left[1..];
      assert left == [x] + rest;
      LeftJoinAppend([x], rest, key, right);
      LeftJoinMultiplicity(rest, key, right, l, p);
      RowContribution(x, key, right, l, p);
      var c := CountEntry(key(l), p, right);
      var m := multiset(rest)[l];
      var pair := (l, Some(p));
      var rows, more := LeftJoin([x], key, right), LeftJoin(rest, key, right);
      assert multiset(rows + more)[pair] == multiset(rows)[pair] + multiset(more)[pair];
      assert multiset(left)[l] == multiset([x])[l] + m;
      if x == l {
        DistributeOne(m, c);
        assert multiset(left)[l] == 1 + m;
      } else {
        assert multiset(left)[l] == m;
      }
    }
  }

  /** The home merge's key `home_norm`: canonical, and a canonical name's own alias. */
  function HomeKey(m: MatchRecord): (r: string)
    ensures Canonical(r)
    ensures Canonical(m.home) ==> r == Alias(m.home)
  {
    NormalizeCanonical(m.home);
    NormalizeTeam(Some(m.home))
  }

  /** The away merge's key `away_norm`, read from a row of the home merge's output. */
  function AwayKey(h: (MatchRecord, Option<string>)): (r: string)
    ensures Canonical(r)
    ensures Canonical(h.0.away) ==> r == Alias(h.0.away)
  {
    NormalizeCanonical(h.0.away);
    NormalizeTeam(Some(h.0.away))
  }

  function Enrich(row: ((MatchRecord, Option<string>), Option<string>)): EnrichedMatch {
    EnrichedMatch(row.0.0, row.0.1, row.1)
  }

  /**
   * `results_df` after both merges: the home pot is attached first, then the
   * away pot. No record is lost, every row carries one of the records, and
   * each side's pot is the pot of a pot entry whose normalised name is that
   * side's key, or missing when no entry has that key.
   */
  function Reconciled(results: seq<MatchRecord>, teams: seq<PotEntry>): (r: seq<EnrichedMatch>)
    ensures |r| >= |results|
    ensures forall k :: 0 <= k < |r| ==> r[k].record in results
    ensures forall k :: 0 <= k < |r| ==> SideSound(r[k].homePot, HomeKey(r[k].record), PotKeys(teams))
    ensures forall k :: 0 <= k < |r| ==> SideSound(r[k].awayPot, NormalizeTeam(Some(r[k].record.away)), PotKeys(teams))
  {
    var right := PotKeys(teams);
    var joined := LeftJoin(LeftJoin(results, HomeKey, right), AwayKey, right);
    TwoJoinsSound(results, right);
    EnrichAll(results, right, joined)
  }

  /** A pot attached under `key`: that of a right row with the key, or missing when there is none. */
  predicate SideSound(pot: Option<string>, key: string, right: seq<PotKey>) {
    && (pot.Some? ==> PotKey(key, pot.value) in right)
    && (pot.None? ==> forall k :: 0 <= k < |right| ==> right[k].teamNorm != key)
  }

  /** Every row of the two merges carries a record of `results` and sound pots for both sides. */
  predicate JoinedSound(results: seq<MatchRecord>, right: seq<PotKey>, joined: seq<((MatchRecord, Option<string>), Option<string>)>) {
    forall k :: 0 <= k < |joined| ==>
      && joined[k].0.0 in results
      && SideSound(joined[k].0.1, HomeKey(joined[k].0.0), right)
      && SideSound(joined[k].1, NormalizeTeam(Some(joined[k].0.0.away)), right)
  }

  /** The rows of the two merges as enriched matches, one for one. */
  function EnrichAll(results: seq<MatchRecord>, right: seq<PotKey>, joined: seq<((MatchRecord, Option<string>), Option<string>)>): (r: seq<EnrichedMatch>)
    requires JoinedSound(results, right, joined)
    ensures |r| == |joined|
    ensures forall k :: 0 <= k < |r| ==> r[k].record in results
    ensures forall k :: 0 <= k < |r| ==> SideSound(r[k].homePot, HomeKey(r[k].record), right)
    ensures forall k :: 0 <= k < |r| ==> SideSound(r[k].awayPot, NormalizeTeam(Some(r[k].record.away)), right)
  {
    var r := seq(|joined|, k requires 0 <= k < |joined| => Enrich(joined[k]));
    assert forall k :: 0 <= k < |r| ==> r[k] == Enrich(joined[k]);
    r
  }

  /** Both merges are sound for every output row. */
  lemma TwoJoinsSound(results: seq<MatchRecord>, right: seq<PotKey>)
    ensures JoinedSound(results, right, LeftJoin(LeftJoin(results, HomeKey, right), AwayKey, right))
  {
    var home := LeftJoin(results, HomeKey, right);
    var joined := LeftJoin(home, AwayKey, right);
    forall k | 0 <= k < |joined|
      ensures joined[k].0.0 in results
      ensures SideSound(joined[k].0.1, HomeKey(joined[k].0.0), right)
      ensures SideSound(joined[k].1, NormalizeTeam(Some(joined[k].0.0.away)), right)
    {
      LeftJoinSound(home, AwayKey, right, k);
      var i :| 0 <= i < |home| && home[i] == joined[k].0;
      LeftJoinSound(results, HomeKey, right, i);
    }
  }

  // ---------------------------------------------------------------------------
  // Properties
  // ---------------------------------------------------------------------------

  /** No two right rows share a key. */
  predicate UniqueKeys(right: seq<PotKey>) {
    forall i, j :: 0 <= i < j < |right| ==> right[i].teamNorm != right[j].teamNorm
  }

  /** The reference lookup: the pot of the first right row with this key, if any. */
  function Lookup(key: string, right: seq<PotKey>): (r: Option<string>)
    ensures r.None? <==> forall k :: 0 <= k < |right| ==> right[k].teamNorm != key
    ensures r.Some? ==> exists k :: 0 <= k < |right| && right[k] == PotKey(key, r.value) && FirstWith(key, right, k)
    ensures r.Some? ==> Matches(key, right) != [] && r.value == Matches(key, right)[0]
  {
    if right == [] then None
    else if right[0].teamNorm == key then
      assert FirstWith(key, right, 0);
      Some(right[0].pot)
    else
      var r := Lookup(key, right[1..]);
      FirstWithShift(key, right);
      r
  }

  /** No right row before index `k` has the key. */
  predicate FirstWith(key: string, right: seq<PotKey>, k: nat) {
    forall j :: 0 <= j < k && j < |right| ==> right[j].teamNorm != key
  }

  lemma FirstWithShift(key: string, right: seq<PotKey>)
    requires right != [] && right[0].teamNorm != key
    ensures forall p: string, k :: 0 <= k < |right| - 1 && right[1..][k] == PotKey(key, p) && FirstWith(key, right[1..], k) ==>
      right[k + 1] == PotKey(key, p) && FirstWith(key, right, k + 1)
  {
    forall p: string, k | 0 <= k < |right| - 1 && right[1..][k] == PotKey(key, p) && FirstWith(key, right[1..], k)
      ensures right[k + 1] == PotKey(key, p) && FirstWith(key, right, k + 1)
    {
      forall j | 0 <= j < k + 1 && j < |right| ensures right[j].teamNorm != key {
        if j > 0 {
          assert right[j] == right[1..][j - 1];
        }
      }
    }
  }

  /** With unique keys a left row receives exactly one pot value: the looked-up one. */
  lemma {:induction false} AttachedUnique(key: string, right: seq<PotKey>)
    requires UniqueKeys(right)
    ensures Attached(key, right) == [Lookup(key, right)]
  {
    if right != [] {
      AttachedUnique(key, right[1..]);
      if right[0].teamNorm == key {
        assert Matches(key, right[1..]) == [];
      }
    }
  }

  /** Every left row survives the merge: `j` is an output row it heads. */
  lemma LeftJoinKeepsRows<L>(left: seq<L>, key: L -> string, right: seq<PotKey>, i: nat) returns (j: nat)
    requires i < |left|
    ensures j < |LeftJoin(left, key, right)| && LeftJoin(left, key, right)[j].0 == left[i]
  {
    var before, from := left[..i], left[i..];
    assert left == before + from;
    LeftJoinAppend(before, from, key, right);
    LeftJoinKeepsFirst(from, key, right);
    j := |LeftJoin(before, key, right)|;
    FirstOfRight(LeftJoin(before, key, right), LeftJoin(from, key, right), 0, left[i]);
  }

  lemma LeftJoinKeepsFirst<L>(left: seq<L>, key: L -> string, right: seq<PotKey>)
    requires left != []
    ensures |LeftJoin(left, key, right)| >= 1 && LeftJoin(left, key, right)[0].0 == left[0]
  {
    var head := JoinRows(left[0], key, right);
    var rest := LeftJoin(left[1..], key, right);
    assert LeftJoin(left, key, right) == head + rest;
    JoinRowsHead(left[0], key, right);
    FirstOfLeft(head, rest, left[0]);
  }

  lemma JoinRowsHead<L>(l: L, key: L -> string, right: seq<PotKey>)
    ensures |JoinRows(l, key, right)| >= 1 && JoinRows(l, key, right)[0].0 == l
  {
  }

  lemma FirstOfLeft<L, V>(a: seq<(L, V)>, b: seq<(L, V)>, l: L)
    requires |a| >= 1 && a[0].0 == l
    ensures |a + b| >= 1 && (a + b)[0].0 == l
  {
  }

  lemma FirstOfRight<L, V>(a: seq<(L, V)>, b: seq<(L, V)>, k: nat, l: L)
    requires k < |b| && b[k].0 == l
    ensures |a| + k < |a + b| && (a + b)[|a| + k].0 == l
  {
  }

  /** Every value `Matches` returns is the pot of a right row with that key. */
  lemma {:induction false} MatchesSound(key: string, right: seq<PotKey>, k: nat)
    requires k < |Matches(key, right)|
    ensures PotKey(key, Matches(key, right)[k]) in right
  {
    var head: seq<string> := if right[0].teamNorm == key then [right[0].pot] else [];
    var tail := Matches(key, right[1..]);
    assert Matches(key, right) == head + tail;
    if k < |head| {
      assert right[0] == PotKey(key, right[0].pot);
    } else {
      MatchesSound(key, right[1..], k - |head|);
      assert (head + tail)[k] == tail[k - |head|];
      assert PotKey(key, tail[k - |head|]) in right[1..];
    }
  }

  /**
   * Every output row of the merge pairs a left row with the pot of a right
   * row whose key equals the left row's, or with a missing pot when no
   * right row has that key.
   */
  lemma {:induction false} LeftJoinSound<L>(left: seq<L>, key: L -> string, right: seq<PotKey>, j: nat)
    requires j < |LeftJoin(left, key, right)|
    ensures LeftJoin(left, key, right)[j].0 in left
    ensures var row := LeftJoin(left, key, right)[j];
      && (row.1.Some? ==> PotKey(key(row.0), row.1.value) in right)
      && (row.1.None? ==> forall k :: 0 <= k < |right| ==> right[k].teamNorm != key(row.0))
  {
    var ps := Attached(key(left[0]), right);
    var head := JoinRows(left[0], key, right);
    var rest := LeftJoin(left[1..], key, right);
    assert LeftJoin(left, key, right) == head + rest;
    if j < |head| {
      assert (head + rest)[j] == (left[0], ps[j]);
      var ms := Matches(key(left[0]), right);
      if ms != [] {
        MatchesSound(key(left[0]), right, j);
      }
    } else {
      LeftJoinSound(left[1..], key, right, j - |head|);
      assert (head + rest)[j] == rest[j - |head|];
      assert rest[j - |head|].0 in left[1..];
    }
  }

  /** With unique right keys the merge keeps the left table's length and order and adds the looked-up pot. */
  lemma {:induction false} LeftJoinUnique<L>(left: seq<L>, key: L -> string, right: seq<PotKey>)
    requires UniqueKeys(right)
    ensures |LeftJoin(left, key, right)| == |left|
    ensures forall i :: 0 <= i < |left| ==> LeftJoin(left, key, right)[i] == (left[i], Lookup(key(left[i]), right))
  {
    if left != [] {
      AttachedUnique(key(left[0]), right);
      LeftJoinUnique(left[1..], key, right);
      var r := LeftJoin(left, key, right);
      forall i | 0 <= i < |left| ensures r[i] == (left[i], Lookup(key(left[i]), right)) {
        if i > 0 {
          assert r[i] == LeftJoin(left[1..], key, right)[i - 1];
        }
      }
    }
  }

  /** Duplicate right keys multiply left rows, as pandas does: one team listed in two pots gives two rows. */
  lemma DuplicateKeysMultiply(m: MatchRecord)
    ensures var right := [PotKey("x", "Pot 1"), PotKey("x", "Pot 2")];
      LeftJoin([m], (r: MatchRecord) => "x", right) == [(m, Some("Pot 1")), (m, Some("Pot 2"))]
  {
    var right := [PotKey("x", "Pot 1"), PotKey("x", "Pot 2")];
    assert right[1..] == [PotKey("x", "Pot 2")];
    assert right[1..][1..] == [];
    assert Matches("x", right) == ["Pot 1", "Pot 2"];
    assert [m][1..] == [];
  }

  /** Every match record survives both merges. */
  lemma ReconciledKeepsRecords(results: seq<MatchRecord>, teams: seq<PotEntry>, i: nat)
    requires i < |results|
    ensures exists j :: 0 <= j < |Reconciled(results, teams)| && Reconciled(results, teams)[j].record == results[i]
  {
    var right := PotKeys(teams);
    var home := LeftJoin(results, HomeKey, right);
    var h := LeftJoinKeepsRows(results, HomeKey, right, i);
    var j := LeftJoinKeepsRows(home, AwayKey, right, h);
    var joined := LeftJoin(home, AwayKey, right);
    assert Reconciled(results, teams)[j] == Enrich(joined[j]);
  }

  /**
   * When the normalised team names are unique, reconciling keeps the
   * results table's length and order, and each side's pot is the pot of the
   * unique entry with that side's key, or missing when there is none.
   */
  lemma ReconciledUnique(results: seq<MatchRecord>, teams: seq<PotEntry>)
    requires UniqueKeys(PotKeys(teams))
    ensures |Reconciled(results, teams)| == |results|
    ensures forall i :: 0 <= i < |results| ==>
      var right := PotKeys(teams);
      Reconciled(results, teams)[i] ==
        EnrichedMatch(results[i], Lookup(HomeKey(results[i]), right), Lookup(NormalizeTeam(Some(results[i].away)), right))
  {
    var right := PotKeys(teams);
    var home := LeftJoin(results, HomeKey, right);
    LeftJoinUnique(results, HomeKey, right);
    LeftJoinUnique(home, AwayKey, right);
  }
}
