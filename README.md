# Three course exercises, modelled and proved in Dafny

This project models the deterministic cores of three small Python programs:

1. **Tic-tac-toe** (`tictactoe.py`). It covers the rules of the game: the
   initial board, whose turn it is, the available actions, the board after a
   move, the winner, whether the game is over, and the utility. It also covers
   the minimax search with its inner `MaxValue`/`MinValue`.
2. **PageRank** (`pagerank.py`). It covers:
   - the link filter of `crawl`;
   - `transition_model`;
   - the weight list `sample_pagerank` hands to its random draw;
   - the tally that turns a sequence of samples into ranks;
   - the update, convergence test and copy-back of `iterate_pagerank`.
3. **Shopping** (`shopping.py`). It covers the counting in `evaluate`, and the
   per-row column encoding with the header skip in `load_data`.

Files, one module each:

- `outcomes.dfy`: `Option` and `Outcome`. A Python exception is modelled as a
  `Raised(error)` value, so every error path of the code is part of a result.
- `setsum.dfy`: the real-valued sum of the values of a finite map, with the
  lemmas the mass arguments need. It also defines `Times(c, v)`, which is
  simply `c * v`. Scaling is written with it so that the solver matches
  products by their factors.
- `tictactoe.dfy`: the board is a 3×3 sequence value, so the deep copy in
  `result` is implicit. The loops of `player`, `actions`, `MaxValue` and
  `MinValue` are methods, each proved equal to a specification function.
  `result` is a method tied to the function `Play`. The `minimax` method is
  specified by the optimality of its move and by the tuple-order tie-break.
  The code's quirks are kept:
  - `winner` reports the first line of three equal cells even when they are
    empty;
  - `actions` answers `None` on a finished board, so `result` then fails.
- `pagerank.dfy`: ranks are exact `real`s. The corpus is a map from page to
  link set. Every loop is a method proved equal to a pure specification: the
  link filter's set comprehension and `Filtered` for `crawl`, `LinkedOthers`,
  `Transition`, the weights read from `Transition`, `TallyOf`, `Inflow`, `Step`,
  `Uniform`, `Close`, and the new ranks for the copy-back. The `while True`
  loop runs under a fuel bound. The mass lemmas prove:
  - in a filtered corpus, a page's transition distribution sums to 1 when
    the page has links and to 1 - d when it has none, so for d != 0 it sums
    to 1 exactly when the page has links;
  - every transition probability lies between 0 and 1 when 0 <= d <= 1, in
    any corpus;
  - every iterated rank lies between 0 and 1 when 0 <= d <= 1 and every
    page's links stay inside the corpus;
  - the uniform start sums to 1;
  - every step keeps the total at 1 when no page is dangling and every
    page's links stay inside the corpus. The second condition is needed: a
    link to a page outside the corpus loses the rank sent along it.
- `shopping.dfy`: `evaluate` is a loop over the predictions, proved equal to a
  count function. The counts are also shown to be sizes of position sets.
  `load_data`'s column dispatch is a loop per row, and `load_data` itself is a
  loop over the rows. The `int()`/`float()` parsers are function parameters
  that return `None` where Python raises `ValueError`.

The model follows the code wherever the code and its description differ:

- A page without links is not redistributed over the corpus. Its transition
  mass is `1 - d`, and in an update step it passes on nothing.
- The tally starts a sampled page at 2, not 1.
- The tally divides by the constant `SAMPLES`, not by the number of samples.
- Because of the start at 2, a tallied rank can exceed 1, against the promise
  of ranks between 0 and 1: `TallyAboveOne` shows a page drawn in all
  `SAMPLES` draws gets (SAMPLES + 1)/SAMPLES.
- `weights_list` calls `transition_model` with the constant `DAMPING`.
- The month column adds nothing to the evidence, because the code compares a
  string with an integer. A full 18-column row therefore gives 16 values.

## Model

| member | source | states |
|---|---|---|
| TicTacToe.InitialState | tictactoe.py:13-19 | every cell of the initial board is empty, and X moves first |
| TicTacToe.CellsLayout | tictactoe.py:29 | the nine coordinates the loops visit are exactly the in-bounds cells, each once |
| TicTacToe.Player | tictactoe.py:22-37 | the counting loop returns X exactly when X has been played at most as often as O, otherwise O |
| TicTacToe.Winner | tictactoe.py:68-83 | a winner other than None has a full line of its mark, and a board with a won line and no line of three empty cells has a winner (soundness only: an empty line hides a win) |
| TicTacToe.ScanRows | tictactoe.py:73-75 | a mark returned by the row scan owns a full line, and when no line is all empty a win in a later row or any column or diagonal is found |
| TicTacToe.ScanColumns | tictactoe.py:77-82 | the same for the column scan and the diagonals |
| TicTacToe.EmptyRowHidesWin | tictactoe.py:73-75 | on every board whose top row is empty, `winner` returns None, the game goes on and `utility` raises, whatever the other rows hold |
| TicTacToe.HiddenWinExists | tictactoe.py:73-75 | such a board can hold a middle row filled by X, so the hidden win is real |
| TicTacToe.HasEmptyFrom | tictactoe.py:93-96 | the nested scan finds an empty cell exactly when one exists at or after the given position |
| TicTacToe.Terminal | tictactoe.py:86-97 | the game is over exactly when the winner is X or O or no cell is empty |
| TicTacToe.Utility | tictactoe.py:100-113 | it is 1, -1 or 0 on a finished board according to the winner, and it raises on an unfinished board |
| TicTacToe.EmptyCellsAre | tictactoe.py:48-50 | the available moves are the in-bounds empty cells |
| TicTacToe.NonTerminalHasMove | tictactoe.py:93-97 | an unfinished board has an empty cell |
| TicTacToe.Actions | tictactoe.py:41-51 | on a finished board it is None, otherwise exactly the set of empty cells |
| TicTacToe.Result | tictactoe.py:54-64 | a finished board makes `actions` None and the membership test fail; a move that is not available raises; otherwise only the chosen cell changes, to the mark of the player to move |
| TicTacToe.PlayCounts | tictactoe.py:59-63 | a move fills one empty cell with the mover's mark and leaves the other mark's count unchanged |
| TicTacToe.PlayAlternates | tictactoe.py:34-37 | from a board with balanced counts a move hands the turn to the other player and keeps the counts balanced |
| TicTacToe.MaxOverBound | tictactoe.py:128-131 | the running maximum bounds the value of every open cell still to be visited |
| TicTacToe.MaxOverAttained | tictactoe.py:128-131 | the running maximum is its starting value or the value of some open cell |
| TicTacToe.MinOverBound | tictactoe.py:136-139 | the running minimum lies below the value of every open cell still to be visited |
| TicTacToe.MinOverAttained | tictactoe.py:136-139 | the running minimum is its starting value or the value of some open cell |
| TicTacToe.ScoresInRange | tictactoe.py:125-139 | every minimax value lies in -1..1 |
| TicTacToe.MaxScoreIsBest | tictactoe.py:125-131 | on an unfinished board X's value is the largest of O's values after each available move, and some move attains it |
| TicTacToe.MinScoreIsBest | tictactoe.py:133-139 | on an unfinished board O's value is the smallest of X's values after each available move, and some move attains it |
| TicTacToe.MaxValue | tictactoe.py:125-131 | the loop over the actions computes X's minimax value, which lies in -1..1 |
| TicTacToe.MinValue | tictactoe.py:133-139 | the loop over the actions computes O's minimax value, which lies in -1..1 |
| TicTacToe.Least | tictactoe.py:146 | `min` of the (value, action) pairs is a member that no other pair is smaller than in tuple order |
| TicTacToe.Greatest | tictactoe.py:150 | `max` of the (value, action) pairs is a member that no other pair exceeds in tuple order |
| TicTacToe.OChoiceIsBest | tictactoe.py:143-146 | O's choice is an available move whose value for X is the least, with ties broken toward the smallest coordinate |
| TicTacToe.XChoiceIsBest | tictactoe.py:147-150 | X's choice is an available move whose value for O is the greatest, with ties broken toward the largest coordinate |
| TicTacToe.Minimax | tictactoe.py:116-152 | None exactly on a finished board; otherwise an available move that is optimal for the player to move |
| PageRank.Crawl | pagerank.py:38-50 | the pages are the `.html` names, and each page's links are its raw links without itself and restricted to the pages |
| PageRank.CountLinked | pagerank.py:67-73 | the counting loop returns the number of other corpus pages the page links to, a page outside a non-empty corpus raises KeyError, and an empty corpus gives 0 |
| PageRank.TransitionModel | pagerank.py:55-85 | an empty corpus divides by zero, an unknown page is a KeyError, and otherwise the filled dictionary is the transition distribution |
| PageRank.TransitionBounds | pagerank.py:76-84 | for d >= 0, the distribution has exactly the corpus pages as keys, and each entry is at least (1-d)/N |
| PageRank.TransitionShares | pagerank.py:67-84 | on a filtered corpus each linked page gets (1-d)/N + d/n and every other page gets (1-d)/N |
| PageRank.BaseMass | pagerank.py:76 | N entries of (1-d)/N sum to 1-d |
| PageRank.EvenShares | pagerank.py:78 | n entries of d/n sum to d |
| PageRank.TransitionSumsToOne | pagerank.py:55-62 | the distribution of a page with links in a filtered corpus sums to exactly 1 |
| PageRank.TransitionDangling | pagerank.py:77-84 | a page without links gives every page (1-d)/N, so its distribution sums to 1-d |
| PageRank.TransitionSumsToOneIff | pagerank.py:76-84 | in a filtered corpus and for d != 0, the distribution sums to 1 exactly when the page has links |
| PageRank.TransitionInUnit | pagerank.py:55-62 | for 0 <= d <= 1, in any corpus holding the page, every probability of the distribution lies between 0 and 1 |
| PageRank.WeightsList | pagerank.py:98-103 | the weights are the transition probabilities with the constant DAMPING, listed in the dictionary's key order; an unknown page raises |
| PageRank.CountStep | pagerank.py:131 | a sample first seen counts 2, and each later sighting adds 1 |
| PageRank.TallyDone | pagerank.py:134-135 | once every count has been divided by SAMPLES, the ranks are the tally |
| PageRank.Tally | pagerank.py:129-137 | a page sampled k times gets (k+1)/SAMPLES, and unsampled pages are absent |
| PageRank.MultiplicitiesSum | pagerank.py:130-131 | the number of sightings of all pages adds up to the number of samples |
| PageRank.TallyTotal | pagerank.py:130-135 | the tally sums to (samples + distinct pages)/SAMPLES, which exceeds 1 for a full run |
| PageRank.TallyAboveOne | pagerank.py:93-95 | against the docstring's ranks between 0 and 1, a page drawn in all SAMPLES draws is ranked (SAMPLES + 1)/SAMPLES > 1 |
| PageRank.InflowIsSum | pagerank.py:168-172 | the accumulated inflow of a page is the sum of prev[q]/\|links(q)\| over the pages q linking to it |
| PageRank.GatherStep | pagerank.py:168-172 | each page of the inner loop adds its share, or 0, to the running inflow |
| PageRank.SharesAdd | pagerank.py:170 | adding a sender adds its share to the total inflow |
| PageRank.GatherInflow | pagerank.py:167-172 | the inner loop leaves relatives_pr[html] holding its old value plus the full inflow of html |
| PageRank.UpdateVisit | pagerank.py:167-173 | each visited page gets base + d·inflow |
| PageRank.UpdateDone | pagerank.py:167-173 | after all pages are visited the new ranks are one update step |
| PageRank.UpdateStep | pagerank.py:162-173 | the two nested loops compute new[p] = (1-d)/N + d·(inflow of p) for every p |
| PageRank.Converged | pagerank.py:176-181 | the pass stops exactly when every page moved by at most 0.001; one page that moved more prevents it |
| PageRank.StartVisit | pagerank.py:157-158 | each visited key starts at 1/N |
| PageRank.StartDone | pagerank.py:157-158 | after the loop every page starts at 1/N |
| PageRank.StartRanks | pagerank.py:155-159 | the starting ranks are uniform, and empty for an empty corpus |
| PageRank.CopyDone | pagerank.py:185-186 | once every key is copied, prev equals new |
| PageRank.CopyRanks | pagerank.py:185-186 | the copy-back loop makes prev equal to new |
| PageRank.NoEarlierStopStep | pagerank.py:181-182 | a pass that does not converge extends the run of passes that did not stop |
| PageRank.Pass | pagerank.py:164-186 | one pass either stops with the next iterate, converged, or carries it on to the next pass |
| PageRank.IteratePageRank | pagerank.py:140-186 | an empty corpus divides by zero; a returned result is the first iterate that is close to its predecessor; running out of fuel (`OutOfFuel`) means no pass within the bound converged |
| PageRank.IterateKeys | pagerank.py:157-173 | every iterate ranks exactly the corpus pages |
| PageRank.Outflow | pagerank.py:169-170 | when the page's links stay inside the corpus, a page with links hands out exactly its rank over all pages, and a page without links hands out nothing |
| PageRank.InflowsFromSum | pagerank.py:167-172 | when every page's links stay inside the corpus, the inflows summed over all pages equal the ranks of the sending pages that have links |
| PageRank.PassedByRemove | pagerank.py:169-170 | the passed-on mass of a set of senders splits off one sender |
| PageRank.TotalInflow | pagerank.py:167-172 | when every page's links stay inside the corpus, the total inflow equals the rank held by pages with links |
| PageRank.PassedAndDangling | pagerank.py:169-172 | the rank passed on plus the rank stuck at dangling pages is the whole rank |
| PageRank.StepSplits | pagerank.py:162-173 | an update step totals (1-d) + d·(total inflow) |
| PageRank.StepMass | pagerank.py:162-173 | when every page's links stay inside the corpus, an update step totals (1-d) + d·(rank held by pages with links) |
| PageRank.NothingDangles | pagerank.py:169-170 | without dangling pages every page passes on all of its rank |
| PageRank.StepPreservesMass | pagerank.py:145-147 | with no dangling page and every page's links inside the corpus, an update of ranks, one per page, that sum to 1 again gives one rank per page summing to 1 |
| PageRank.OutsideLinkLosesRank | pagerank.py:168-173 | the condition on links is needed: a one-page corpus whose page links only outside it has no dangling page and ranks summing to 1, yet after an update with d = 0.5 they sum to 0.5 |
| PageRank.UniformTotal | pagerank.py:157-158 | the uniform start ranks the corpus pages and sums to 1 |
| PageRank.IterateTotal | pagerank.py:145-147 | with no dangling page and every page's links inside the corpus, every iterate ranks exactly the corpus pages and sums to 1 |
| PageRank.InflowNonNegative | pagerank.py:168-172 | non-negative ranks send every page a non-negative inflow |
| PageRank.StepInUnit | pagerank.py:162-173 | for 0 <= d <= 1 and every page's links inside the corpus, an update of ranks, one per page, each in [0, 1] with total at most 1, gives such ranks again |
| PageRank.IterateInUnit | pagerank.py:145-147 | for 0 <= d <= 1 and links inside the corpus, every iterate ranks each page between 0 and 1, dangling pages allowed |
| Shopping.Evaluate | shopping.py:143-159 | the loop returns the counted rates, raises IndexError when there are fewer labels than predictions, and raises ZeroDivisionError when a class is missing |
| Shopping.ActualStep | shopping.py:149-158 | each step adds its index to the positions of its label |
| Shopping.HitsStep | shopping.py:149-158 | each step adds its index to the right predictions of its label |
| Shopping.ActualsAreSizes | shopping.py:150-157 | sen_c and spe_c count the positions labelled 1 and 0 |
| Shopping.HitsAreSizes | shopping.py:150-157 | sensitivity and specificity before division count the positions labelled and predicted 1, and labelled and predicted 0 |
| Shopping.CountsAreSizes | shopping.py:149-158 | all four counters are the sizes of those position sets |
| Shopping.EvaluationIsProportion | shopping.py:131-141 | both returned rates lie in [0, 1], and each is right predictions over actual cases of its class |
| Shopping.CountsSeen | shopping.py:149-158 | a denominator is non-zero exactly when its label occurs among the labels read |
| Shopping.EvaluationDefined | shopping.py:149-159 | rates are returned exactly when enough labels exist and the labels read contain a 1 and a 0; one of them missing is exactly the division by zero |
| Shopping.PerfectCounts | shopping.py:150-157 | when predictions equal labels each right count equals its total |
| Shopping.PerfectPredictions | shopping.py:149-159 | predictions equal to the labels give (1, 1) when both classes occur |
| Shopping.OtherLabelsIgnored | shopping.py:150-157 | labels other than 0 and 1 change no counter |
| Shopping.EvaluationReadsOnlyBinaryPrefix | shopping.py:149-159 | labels past the last prediction, and labels other than 0 and 1, do not change the result |
| Shopping.RowRaised | shopping.py:84-88 | a cell that fails to parse makes the whole row fail |
| Shopping.EncodeRow | shopping.py:84-107 | the column loop builds the row's evidence and label, or raises ValueError at the first numeric cell that does not parse |
| Shopping.DataRaised | shopping.py:71-109 | a failing row makes the whole load fail |
| Shopping.LoadData | shopping.py:67-111 | the loop skips the first row and appends one evidence list per later row, with that row's labels |
| Shopping.RowShape | shopping.py:84-107 | a row fails exactly when a numeric cell does not parse; otherwise it gives one value per cell in columns 0-9 and 11-16 and one label for column 17 |
| Shopping.RowValues | shopping.py:84-107 | each evidence position holds the value its column contributes, the month column being skipped |
| Shopping.FullRow | shopping.py:84-109 | an 18-column row that parses gives 16 values in column order, the parsed numbers, visitor type 1 exactly for `Returning_Visitor`, weekend 1 exactly for `TRUE`, and the label 1 exactly for `TRUE` |
| Shopping.DataShape | shopping.py:71-111 | every row after the header gives one evidence list, and with 18-column rows one label per list |
| Shopping.HeaderSkipped | shopping.py:72-75 | the first row's contents do not affect the result |

## Left out

- `main` in all three programs: argument checks and printing are I/O.
- `crawl`'s directory listing, file reading and link regex: `Crawl` takes the
  map from file name to raw link set as input.
- The random draws of `sample_pagerank` and its `population` helper: the
  tally takes the sample sequence as input, and only the weights handed to the
  draw are modelled.
- Floating point: ranks, damping factors and rates are exact reals, so
  rounding and the outcome of the 0.001 test on machine floats are not
  modelled.
- IteratePageRank: does not model the unbounded `while True`. The loop runs
  for at most `fuel` passes and reports `OutOfFuel` when none converged;
  nothing is claimed about whether the real loop terminates.
- Python dictionary and set order: the order in which a loop visits a set or
  a dictionary is an arbitrary choice, and the key order `weights_list` reads
  is a parameter. Every contract holds for any order.
- CSV reading and string-to-number parsing in `load_data`: the rows are
  given, and `int()` and `float()` are opaque parameters.
- scikit-learn (`train_test_split`, `KNeighborsClassifier`, `train_model`,
  `predict`): the behaviour of a library is not visible.
- TicTacToe.Winner: proved sound only, not complete. Like the code, it misses
  a win hidden behind an earlier line of empty cells.
