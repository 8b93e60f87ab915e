# Pot-versus-pot results of the 2024–25 Champions League league phase

This project models the in-memory data pipeline of `pot_vs_pot_results_2024.py`. The script scrapes the league-phase article, reads the four draw pots and every fixture, and then attaches to each fixture the pots of its two teams. It turns every played match into a win, draw or loss seen from each side and counts the outcomes in a dense pot × pot matrix. The model proves properties of each stage in Dafny.

Modules follow the stages of the script:

| module | stage |
|---|---|
| `Common` | `Option` |
| `Text` | `str.strip`, `str.lower`, one-character `str.replace`, `str.startswith`, `str.split` on one character, and `int()` on digit strings |
| `Tables` | the pot-table loop and the results-table loop, as methods with loop invariants proved against recursive specification functions |
| `Names` | `name_map` and `normalize_team` |
| `Reconcile` | the two left merges, with pandas' row multiplication on duplicate keys |
| `Outcomes` | the played filter, `get_home_result`, the inversion map and the home/away perspectives |
| `Matrix` | `sorted(unique())` on pot labels, the counts per (pot, opponent), and the dense reindex |
| `Pipeline` | the stages composed, and one worked fixture |

There is no parsed HTML. A document is the sequence of its tables (`Tables.Table`). Each table carries:
- the stripped text of its caption, if it has one;
- whether it has the class `sports-series`;
- its rows, each a sequence of cells.

A cell carries its stripped text and the stripped texts of its `href` anchors. The coefficient is parsed by `float()`, which is not modelled. It is passed in as a parameter `parse: string -> Option<real>`, and `None` stands for the `ValueError` branch.

The model follows the code in one place where a natural reading of the script's intent differs. Both merges are pandas left merges. A left row whose key matches several right rows yields one output row per match, so a team listed twice multiplies its fixtures. The model keeps this (`Reconcile.DuplicateKeysMultiply`). The length-and-order guarantee is proved only when the normalised team names are unique (`Reconcile.ReconciledUnique`).

## Model

| member | source | states |
|---|---|---|
| Text.TrimLeft | pot_vs_pot_results_2024.py:124 | the result is a suffix of the input; every dropped character is whitespace; the result does not start with whitespace |
| Text.TrimRight | pot_vs_pot_results_2024.py:124 | the result is a prefix of the input; every dropped character is whitespace; the result does not end with whitespace |
| Text.Strip | pot_vs_pot_results_2024.py:124 | `strip()` leaves no whitespace at either end and never lengthens the string |
| Text.StripPadded | pot_vs_pot_results_2024.py:124 | whitespace added on either side does not change what `strip()` returns |
| Text.StripUnpadded | pot_vs_pot_results_2024.py:124 | `strip()` leaves a string without surrounding whitespace unchanged |
| Text.Lower | pot_vs_pot_results_2024.py:124 | `lower()` keeps the length, lowers each character, and leaves no upper-case letter |
| Text.LowerStrip | pot_vs_pot_results_2024.py:124 | lower-casing and stripping commute |
| Text.Replace | pot_vs_pot_results_2024.py:123 | `replace(a, b)` keeps the length and puts `b` exactly where `a` was, every other character unchanged; when `a != b` no `a` is left behind |
| Text.StartsWithConcat | pot_vs_pot_results_2024.py:39 | `Text.StartsWith`, the caption test: a string starts with `prefix` exactly when it is `prefix` followed by the rest, so every `prefix + rest` starts with `prefix` |
| Text.Split | pot_vs_pot_results_2024.py:159 | `split(sep)` gives at least one piece, and no piece contains the separator |
| Text.JoinSplit | pot_vs_pot_results_2024.py:159 | joining the pieces of `split(sep)` with `sep` gives back the string |
| Text.SplitTwo | pot_vs_pot_results_2024.py:159 | `"h-a"` with no `-` in either half splits into exactly `[h, a]` |
| Text.SplitShape | pot_vs_pot_results_2024.py:159 | without a separator `split` gives the whole string; otherwise the first piece is the text before the first separator, the rest are the pieces of what follows, and there are exactly two pieces iff no separator follows the first |
| Text.DigitsValue | pot_vs_pot_results_2024.py:159 | a digit string has value 0 exactly when every digit is `0` |
| Text.DigitsValueAppend | pot_vs_pot_results_2024.py:159 | appending a digit multiplies the value by ten and adds the digit: the decimal value `int()` gives |
| Names.Clean | pot_vs_pot_results_2024.py:123-124 | the cleaned name has no U+00A0, no U+2011, no surrounding whitespace and no upper-case letter |
| Names.Substitute | pot_vs_pot_results_2024.py:123 | the two replacements keep the length, turn every U+00A0 into `' '` and every U+2011 into `'-'`, leave neither behind, and change no other character |
| Names.NormalizeSpelling | pot_vs_pot_results_2024.py:113-126 | names that differ only in U+00A0 against `' '` or U+2011 against `'-'`, position by position, normalise alike |
| Names.UnionSaintGilloise | pot_vs_pot_results_2024.py:113-126 | the U+2011 spelling "Union Saint‑Gilloise" normalises to the alias-table entry `"union saint-gilloise"` |
| Names.Alias | pot_vs_pot_results_2024.py:126 | a name that is not a key is returned unchanged; a key gives a canonical alias that is its own alias if it is a key; a canonical name stays canonical |
| Names.NormalizeTeam | pot_vs_pot_results_2024.py:119-126 | a missing name gives `""`; every result is canonical, with no U+00A0, no U+2011, no surrounding whitespace and no upper-case letter |
| Names.NameMapCanonical | pot_vs_pot_results_2024.py:113-117 | every alias value is canonical, and is either not a key or maps to itself |
| Names.CleanCanonical | pot_vs_pot_results_2024.py:123-124 | cleaning a canonical name changes nothing |
| Names.AliasIdempotent | pot_vs_pot_results_2024.py:113-126 | looking an alias up again gives the same alias |
| Names.NormalizeCanonical | pot_vs_pot_results_2024.py:119-126 | a canonical name normalises to its alias |
| Names.NormalizeIdempotent | pot_vs_pot_results_2024.py:113-126 | `normalize_team(normalize_team(x)) == normalize_team(x)` for every input, including a missing one |
| Names.NormalizeCaseInsensitive | pot_vs_pot_results_2024.py:119-126 | names equal up to letter case normalise alike |
| Names.NormalizePaddingInsensitive | pot_vs_pot_results_2024.py:119-126 | whitespace around a name, including no-break spaces, does not change its normal form |
| Names.TrailingSpace | pot_vs_pot_results_2024.py:119-126 | one trailing space does not change the normal form |
| Names.AjaxAnyCase | pot_vs_pot_results_2024.py:113-126 | `"ajax"` and `"Ajax"` both normalise to `"afc ajax"` |
| Names.AjaxExample | pot_vs_pot_results_2024.py:113-126 | `"Ajax "` and `"ajax"` both normalise to `"afc ajax"` |
| Tables.Body | pot_vs_pot_results_2024.py:45 | definition: `rows[1:]`, the rows after the header, or none; `Tables.HeaderIgnored` states what it means for the output |
| Tables.FirstNamed | pot_vs_pot_results_2024.py:53-58 | no team iff every anchor text is empty; otherwise the team is non-empty and is the first non-empty anchor text |
| Tables.FirstNamedAnchor | pot_vs_pot_results_2024.py:53-58 | the early-`break` loop finds exactly `FirstNamed` of the first cell's anchors |
| Tables.RowPot | pot_vs_pot_results_2024.py:46-76 | a row that yields an entry has at least three cells; the entry has the table's pot, a non-empty team taken from the first cell's anchors, and the parsed last cell as coefficient |
| Tables.RowPotSpec | pot_vs_pot_results_2024.py:46-76 | a row yields an entry iff it has at least three cells and a non-empty anchor in cell 0; the entry holds the caption, the first named anchor and the parsed last cell |
| Tables.RowsPots | pot_vs_pot_results_2024.py:45-76 | every entry from one table carries that table's caption as its pot and a non-empty team |
| Tables.ExtractPotRows | pot_vs_pot_results_2024.py:45-76 | the row loop of one pot table appends exactly the entries `RowsPots` specifies, in row order |
| Tables.ExtractPots | pot_vs_pot_results_2024.py:36-76 | the caption loop builds exactly `PotsOf(doc)`: the entries of every table whose caption starts with "Pot", in document order |
| Tables.TablePots | pot_vs_pot_results_2024.py:39-76 | a table whose caption does not start with "Pot" gives nothing; otherwise at most one entry per body row, each with the caption as pot and a non-empty team |
| Tables.PotsOf | pot_vs_pot_results_2024.py:36-76 | every emitted entry's pot starts with "Pot" and its team is non-empty |
| Tables.PotsOfMembers | pot_vs_pot_results_2024.py:36-76 | an entry is emitted iff some body row of some pot table yields it |
| Tables.PotsOfSound | pot_vs_pot_results_2024.py:36-76 | every emitted entry comes from a body row of a pot table |
| Tables.PotsOfComplete | pot_vs_pot_results_2024.py:36-76 | every body row of a pot table that yields an entry has it emitted |
| Tables.RowsPotsMembers | pot_vs_pot_results_2024.py:45-76 | within one table, an entry is emitted iff some row yields it |
| Tables.RowsPotsSound | pot_vs_pot_results_2024.py:45-76 | within one table, every emitted entry comes from some row |
| Tables.RowsPotsComplete | pot_vs_pot_results_2024.py:45-76 | within one table, every row that yields an entry has it emitted |
| Tables.PotsOfAppend | pot_vs_pot_results_2024.py:36-76 | entries come table by table: extracting from `a + b` is extracting from `a` then from `b` |
| Tables.RowsPotsAppend | pot_vs_pot_results_2024.py:45-76 | within a table, entries come row by row |
| Tables.HeaderIgnored | pot_vs_pot_results_2024.py:44-45 | the header row contributes nothing, whatever it holds |
| Tables.LongRows | pot_vs_pot_results_2024.py:94-96 | the kept rows are exactly the rows with at least three cells; with `Tables.LongRowsAppend` and `Tables.LongRowsOne` they keep row order and multiplicity |
| Tables.LongRowsAppend | pot_vs_pot_results_2024.py:93-96 | the filter keeps row order: the kept rows of `a + b` are those of `a`, then those of `b` |
| Tables.LongRowsOne | pot_vs_pot_results_2024.py:94-96 | a single row is kept exactly when it has at least three cells |
| Tables.RowRecord | pot_vs_pot_results_2024.py:97-106 | a record takes its matchday from the caption, home and away from cells 0 and 2, and a score of cell 1's length with no en dash left |
| Tables.RowsResults | pot_vs_pot_results_2024.py:93-106 | record k comes from the k-th kept row: home and away are the texts of cells 0 and 2, the score is cell 1 with each en dash replaced, so it contains no en dash; order and count are fixed by `Tables.RowsResultsAppend` and `Tables.RowsResultsOne` |
| Tables.RowsResultsAppend | pot_vs_pot_results_2024.py:93-106 | records come row by row: the records of `a + b` are those of `a`, then those of `b` |
| Tables.RowsResultsOne | pot_vs_pot_results_2024.py:94-106 | a single row gives exactly one record, `RowRecord` of it, if it has at least three cells, and none otherwise |
| Tables.RowsResultsStep | pot_vs_pot_results_2024.py:93-106 | the row loop's step: one more row appends its record, or nothing for a short row |
| Tables.ExtractRows | pot_vs_pot_results_2024.py:93-106 | the row loop of one results table appends exactly the records `RowsResults` specifies |
| Tables.ResultsOf | pot_vs_pot_results_2024.py:91-106 | the loop fails iff some `sports-series` table has no caption; the table it names is one without a caption and every earlier `sports-series` table has one; no stored score contains an en dash; the records are fixed table by table by `Tables.ResultsOfAppend` and `Tables.ResultsOfOne` |
| Tables.ResultsOfStep | pot_vs_pot_results_2024.py:91-106 | the table loop's step: a failure is kept; a table without the class adds nothing; a caption-less results table fails at its position; a captioned one appends its records |
| Tables.ResultsOfAppend | pot_vs_pot_results_2024.py:91-106 | when neither part fails, the records of `a + b` are those of `a`, then those of `b` |
| Tables.ResultsOfOne | pot_vs_pot_results_2024.py:91-106 | one table: a captioned `sports-series` table gives one record per body row with at least three cells, in row order; any other table gives none; a caption-less results table fails |
| Tables.ResultsOfFailed | pot_vs_pot_results_2024.py:92 | once a caption-less results table is met, the rest of the document does not matter |
| Tables.ExtractResults | pot_vs_pot_results_2024.py:91-106 | the loop over `sports-series` tables returns exactly `ResultsOf(doc)` |
| Reconcile.PotKeys | pot_vs_pot_results_2024.py:131-135 | definition: one `(team_norm, pot)` row per pot entry, in order |
| Reconcile.Matches | pot_vs_pot_results_2024.py:134-139 | no value at all iff no right row has the key, and never more values than right rows |
| Reconcile.MatchesCount | pot_vs_pot_results_2024.py:134-139 | there is one matched value per right row with the key |
| Reconcile.MatchesComplete | pot_vs_pot_results_2024.py:134-139 | the pot of every right row with the key is among the matched values |
| Reconcile.MatchesMultiplicity | pot_vs_pot_results_2024.py:134-139 | each pot occurs among the matched values once per right row `(key, pot)` |
| Reconcile.MatchesSound | pot_vs_pot_results_2024.py:134-139 | every matched value is the pot of a right row with that key |
| Reconcile.MatchesAppend | pot_vs_pot_results_2024.py:134-139 | the matches of a concatenated right table are those of the first part followed by those of the second, so matched values keep right-table order |
| Reconcile.MatchesOne | pot_vs_pot_results_2024.py:134-139 | a single right row contributes its pot exactly when it has the key |
| Reconcile.Attached | pot_vs_pot_results_2024.py:134-139 | a left row receives a single missing pot iff no right row has its key; otherwise value k is `Some` of the k-th match, so one value per right row with the key, in the right-table order `MatchesAppend` fixes |
| Reconcile.JoinRows | pot_vs_pot_results_2024.py:134-139 | definition: one left row paired with each attached value; its counts are stated by `Reconcile.LeftJoinRow` |
| Reconcile.LeftJoin | pot_vs_pot_results_2024.py:134-147 | a left merge never has fewer rows than its left table |
| Reconcile.LeftJoinLength | pot_vs_pot_results_2024.py:134-147 | the merge has, for each left row, one row per right row with its key, or one row when there is none |
| Reconcile.LeftJoinAppend | pot_vs_pot_results_2024.py:134-147 | the merge keeps left order: merging `a + b` is merging `a`, then `b` |
| Reconcile.LeftJoinRow | pot_vs_pot_results_2024.py:134-147 | one left row yields a single row with a missing pot iff no right row has its key, else one row per right row with its key; all of them carry that left row, and `(l, p)` occurs once per right row `(key(l), p)` |
| Reconcile.RowContribution | pot_vs_pot_results_2024.py:134-147 | a left row contributes the pair `(l, p)` only if it is `l`, and then once per right row `(key(l), p)` |
| Reconcile.LeftJoinMultiplicity | pot_vs_pot_results_2024.py:134-147 | the pair `(l, p)` occurs in the merge (occurrences of `l` in the left table) × (right rows `(key(l), p)`) times |
| Reconcile.Lookup | pot_vs_pot_results_2024.py:134-147 | the reference lookup: missing iff no right row has the key, otherwise the pot of a right row k with that key such that no row before k has it, which is also the first match |
| Reconcile.LeftJoinSound | pot_vs_pot_results_2024.py:134-147 | every output row pairs a left row with the pot of a right row of the same key, or with a missing pot only when no right row has that key |
| Reconcile.LeftJoinKeepsRows | pot_vs_pot_results_2024.py:134-147 | every left row heads some output row |
| Reconcile.AttachedUnique | pot_vs_pot_results_2024.py:134-147 | with unique keys a left row receives exactly one value, the looked-up pot |
| Reconcile.LeftJoinUnique | pot_vs_pot_results_2024.py:134-147 | with unique keys the merge keeps the left table's length and order and adds the looked-up pot |
| Reconcile.DuplicateKeysMultiply | pot_vs_pot_results_2024.py:134-139 | a key listed under two pots gives the left row twice, once per pot |
| Reconcile.HomeKey | pot_vs_pot_results_2024.py:129 | the home key is canonical, and a canonical home name is keyed by its alias |
| Reconcile.AwayKey | pot_vs_pot_results_2024.py:130 | the away key is canonical, and a canonical away name is keyed by its alias |
| Reconcile.TwoJoinsSound | pot_vs_pot_results_2024.py:134-147 | every row of the two merges carries a match record, a home pot sound for its home key and an away pot sound for its away key |
| Reconcile.EnrichAll | pot_vs_pot_results_2024.py:134-150 | the merged rows become enriched matches one for one, keeping those facts |
| Reconcile.Reconciled | pot_vs_pot_results_2024.py:129-150 | no fewer rows than results; every row holds one of the results; each side's pot is the pot of an entry whose normalised name is that side's key, and is missing only when no entry has that key |
| Reconcile.ReconciledKeepsRecords | pot_vs_pot_results_2024.py:129-150 | every match record survives both merges |
| Reconcile.ReconciledUnique | pot_vs_pot_results_2024.py:129-150 | with unique normalised team names both merges keep the results' length and order; each side's pot is the pot of the unique entry with that side's key, or missing |
| Outcomes.Played | pot_vs_pot_results_2024.py:155 | the played rows are exactly the rows whose score contains `-` |
| Outcomes.PlayedAppend | pot_vs_pot_results_2024.py:155 | the filter keeps row order: filtering `a + b` is filtering `a` then `b` |
| Outcomes.HomeResult | pot_vs_pot_results_2024.py:158-165 | win iff home goals > away goals, loss iff fewer, draw iff equal |
| Outcomes.WellFormedIsPlayed | pot_vs_pot_results_2024.py:155-159 | every score `get_home_result` accepts passes the played filter |
| Outcomes.HomeResultOfDigits | pot_vs_pot_results_2024.py:158-165 | a score `h-a` of two digit strings parses to their values, and the result compares them |
| Outcomes.Invert | pot_vs_pot_results_2024.py:176 | the inversion swaps win and loss and fixes draw |
| Outcomes.InvertInvolution | pot_vs_pot_results_2024.py:176 | inverting twice gives back the result |
| Outcomes.ParseScore | pot_vs_pot_results_2024.py:159 | the score parses iff it has a hyphen with a digit string before the first one and a digit string, so no further hyphen, after it; the values are those of the two digit strings |
| Outcomes.Mirror | pot_vs_pot_results_2024.py:170-176 | the other side's view swaps pot and opponent and turns a win into a loss, a loss into a win and a draw into a draw |
| Outcomes.MirrorInvolution | pot_vs_pot_results_2024.py:170-176 | seeing a match from the other side twice gives back the first view |
| Outcomes.HomeView | pot_vs_pot_results_2024.py:170-171 | one home perspective per played match |
| Outcomes.AwayView | pot_vs_pot_results_2024.py:174-176 | one away perspective per played match |
| Outcomes.Combined | pot_vs_pot_results_2024.py:170-179 | `combined` has 2 × \|played\| rows; row i is match i from the home side; row \|played\| + i is row i with pot and opponent swapped and the result inverted |
| Matrix.Less | pot_vs_pot_results_2024.py:185 | a proper prefix sorts first |
| Matrix.LessFirstDifference | pot_vs_pot_results_2024.py:185 | the order is lexicographic: the first position where two strings differ decides |
| Matrix.LessIrreflexive | pot_vs_pot_results_2024.py:185 | the string order is irreflexive |
| Matrix.LessTransitive | pot_vs_pot_results_2024.py:185 | the string order is transitive |
| Matrix.LessTotal | pot_vs_pot_results_2024.py:185 | any two different strings are ordered |
| Matrix.LessAsymmetric | pot_vs_pot_results_2024.py:185 | the string order is asymmetric |
| Matrix.SortedDistinctElements | pot_vs_pot_results_2024.py:185 | a strictly sorted list holds no duplicates |
| Matrix.Insert | pot_vs_pot_results_2024.py:185 | inserting into a strictly sorted list keeps it strictly sorted and adds exactly the new element |
| Matrix.SortedDistinct | pot_vs_pot_results_2024.py:185 | `sorted(unique(xs))` is strictly sorted and has exactly the elements of `xs` |
| Matrix.SortedUnique | pot_vs_pot_results_2024.py:185 | two strictly sorted lists with the same elements are equal, so the label order is determined |
| Matrix.PotColumn | pot_vs_pot_results_2024.py:185 | definition: the `pot` column, one label per record; `Matrix.Pots` states the label set |
| Matrix.Pots | pot_vs_pot_results_2024.py:185 | `pots` is strictly sorted and holds exactly the pot labels that occur |
| Matrix.CountOccurrences | pot_vs_pot_results_2024.py:182 | the groupby size `Matrix.Count` of cell (p, o): each of its counts is the number of occurrences of the matching `(p, o, result)` record |
| Matrix.CountBound | pot_vs_pot_results_2024.py:182 | the three counts of `Matrix.Count` for a cell add up to at most the number of records |
| Matrix.CountAppend | pot_vs_pot_results_2024.py:179-182 | the counts of a concatenation are the sums of the counts |
| Matrix.CountMirror | pot_vs_pot_results_2024.py:176-182 | mirroring every record turns cell (p, o) into cell (o, p) with wins and losses swapped |
| Matrix.CountWithMirror | pot_vs_pot_results_2024.py:170-182 | in records followed by their mirrors, a cell is its own count plus the flipped count of the transposed cell |
| Matrix.CountSymmetric | pot_vs_pot_results_2024.py:170-182 | in records followed by their mirrors, cell (a, b) is cell (b, a) with wins and losses swapped |
| Matrix.CombinedMirrored | pot_vs_pot_results_2024.py:170-179 | `combined` is the home view followed by its mirror image |
| Matrix.Cells | pot_vs_pot_results_2024.py:186 | one cell for exactly the pairs in `pots × pots`, each holding its count, zero when no record matches |
| Matrix.PotResults | pot_vs_pot_results_2024.py:182-186 | the matrix is labelled by `pots`, has a cell for exactly the pairs in `pots × pots`, and every cell holds the count of its pair |
| Matrix.PotMember | pot_vs_pot_results_2024.py:185 | the pot of any record is among the labels |
| Matrix.PotsCover | pot_vs_pot_results_2024.py:185-186 | both labels of every record are among the labels |
| Matrix.RecordsCovered | pot_vs_pot_results_2024.py:185-186 | the labels are distinct and cover both sides of every record |
| Matrix.CountAllPots | pot_vs_pot_results_2024.py:182-186 | over `pots × pots` the counts add up to the number of records |
| Matrix.MatrixConservation | pot_vs_pot_results_2024.py:182-186 | the matrix is dense and its counts add up to the number of records: the reindex drops nothing |
| Matrix.CombinedPotsKnown | pot_vs_pot_results_2024.py:170-179 | with pots on both sides of every match, every row of `combined` has a pot and an opponent, and every opponent also occurs as a pot |
| Matrix.OutcomesByPot | pot_vs_pot_results_2024.py:182-186 | `pot_results` is dense, and its counts add up to 2 × \|played\| |
| Matrix.MatrixSymmetric | pot_vs_pot_results_2024.py:182-186 | `[A,B].win == [B,A].loss`, `[A,B].loss == [B,A].win` and `[A,B].draw == [B,A].draw` |
| Pipeline.PotVsPot | pot_vs_pot_results_2024.py:129-186 | the script's matrix from its two extracted tables is dense and sums to 2 × the number of played rows |
| Pipeline.PlayedLength | pot_vs_pot_results_2024.py:155 | the number of played rows is the number of results whose score contains `-` |
| Pipeline.PotVsPotTotal | pot_vs_pot_results_2024.py:129-186 | with unique normalised team names, the matrix sums to 2 × the number of results whose score contains `-` |
| Pipeline.PotVsPotSymmetric | pot_vs_pot_results_2024.py:129-186 | the script's matrix is win/loss symmetric both ways (`[a,b].win == [b,a].loss`, `[a,b].loss == [b,a].win`) and draw symmetric |
| Pipeline.OutcomesByPotCells | pot_vs_pot_results_2024.py:182-186 | the labels are the sorted pots of `combined`, and each cell over `pots × pots` is the count from `combined` |
| Pipeline.OneMatchCombined | pot_vs_pot_results_2024.py:170-179 | one home win gives exactly a win row and the mirrored loss row |
| Pipeline.OneMatchPots | pot_vs_pot_results_2024.py:185 | a single match between two different pots has both labels, in sorted order |
| Pipeline.OneHomeWin | pot_vs_pot_results_2024.py:158-186 | a single home win of pot a over pot b gives one win in (a, b), one loss in (b, a) and empty diagonal cells |
| Pipeline.ThreeOneIsHomeWin | pot_vs_pot_results_2024.py:158-165 | the score `"3-1"` is well formed and a home win |
| Pipeline.PotOneBeforePotTwo | pot_vs_pot_results_2024.py:185 | `"Pot 1"` sorts before `"Pot 2"` |
| Pipeline.RealMadridClubBrugge | pot_vs_pot_results_2024.py:155-186 | a Pot 1 side beating a Pot 2 side 3-1 gives labels `["Pot 1", "Pot 2"]`, a win in (Pot 1, Pot 2) and a loss in (Pot 2, Pot 1) |

## Left out

- HTTP: the request, its headers and the `time.sleep` (`pot_vs_pot_results_2024.py:13-27`, `:79`). These are network and clock I/O.
- HTML parsing: BeautifulSoup, `find_all`, `find_parent` and `get_text` (`:29`, `:36-46`, `:91-94`). A document is the abstract table sequence described above.
  - Each caption belongs to the table that contains it; a caption outside any table, where `find_parent` returns `None`, is not modelled.
  - Nested tables, whose rows `find_all("tr")` would also visit, are not modelled.
  - Only `href` anchors are recorded for a cell.
- Tables.PotEntry: the coefficient's `float()` parse (`:66-70`) is floating point. It is the caller-supplied function `parse`, and `None` stands for the `ValueError` branch.
- Printing (`:84-85`, `:108-109`, `:152`) and every line of plotting and saving (`:189-218`). None of them changes the data.
- The column renames and drops (`:139`, `:147`, `:150`) have no counterpart. `Reconcile.EnrichedMatch` holds exactly the columns that remain.
- Pandas `DataFrame` construction from an empty list (`:87`, `:111`) has no columns, so the script would fail at `:129` or `:131`. The model treats an empty list as an empty table.
- Text.IsSpace: `str.strip()` uses Python's full Unicode whitespace set, and the model writes that set out. `get_text(strip=True)` is taken as already applied to every cell and caption.
- Text.Lower: lower-cases only ASCII letters, because Unicode case mapping is not modelled. Every name in the alias table is ASCII.
- Outcomes.HomeResult: requires a score that splits on `-` into exactly two ASCII digit strings. `int()` also accepts a sign, surrounding whitespace, underscores and non-ASCII digits. Any score it rejects makes the script stop with `ValueError`, and so does a split into more than two pieces. The model has no counterpart to that crash.
- Matrix.OutcomesByPot: requires `Aggregatable`, meaning well-formed scores and a pot on both sides of every played match. A missing pot is NaN in pandas. When NaN sits beside a present pot, `sorted` at `:185` compares a string with NaN and raises `TypeError`. When every pot is missing, `sorted([nan])` succeeds, `groupby` at `:182` drops every row, and the script goes on with a NaN label. Neither case is modelled, nor is pandas' dropping of NaN keys in `groupby`.
- Pipeline.PotVsPot: requires `Aggregatable`, for the same reasons as Matrix.OutcomesByPot.
- Tables.ResultsOf: a `sports-series` table without a caption makes `:92` raise `AttributeError`. The model returns `MissingCaption` with that table's position instead of crashing.
- The shape of `unstack()` (`:182`) is not modelled. It creates a `win`, `draw` or `loss` column only for results that occur somewhere. Every cell of the model holds all three counts, and a missing column reads as 0. This matters only to the plotting code.
- `str.contains('-')` (`:155`) is a regular-expression match. For the pattern `-` it is the same as a substring test, which is what the model uses.
