# Verified model of the depth-estimation comparison survey

The survey script (`QT.py`) shows a rater one colonoscopy frame at a time
next to two depth maps, one from DepthPro and one from EndoDac, in random
left/right order. When "Next" is pressed it records the model label of the
chosen slot, as assigned in the run the click triggers, and finally it
exports the answers as a sheet. This project models the two pieces of
logic in the script:

* **The trial-set builder** (`collect_image_triplets`). It walks the
  categories `high`, `mid`, `low`. For each name listed under
  `images/<cat>` it keeps the tuple
  `(img_path, dp_path, ed_path, cat, f)` when `f` is a regular file under
  `images/<cat>`, `depthpro/<cat>` and `endodac/<cat>`. The disk is an input
  value, `TrialSet.FileSystem`: the listing of each directory that can be
  listed, plus the set of paths that are regular files. A path is the
  sequence of its components, so `os.path.join` appends one component.
* **The session state machine** kept in Streamlit's session state. It holds
  the shuffled pool `triplets_list`, the cursor `current_idx` and the
  append-only `responses` log. `Session.SurveySession.Render` is one run of
  `main()`. The random draws are parameters: an index permutation for
  `random.shuffle` and a boolean for `pos_order[0] == "A"`. So are the
  typed rater name, the radio choice and the two buttons.

Files:

* `wrappers.dfy`: the `Option` and `Result` datatypes.
* `trial_set.dfy`: the builder, the loop method, and its soundness,
  completeness and order lemmas.
* `shuffle.dfy`: an index permutation and the proof that shuffling keeps
  the multiset.
* `session.dfy`: slot assignment, label resolution, the export sheet and
  the `SurveySession` class.

A few behaviours of the script are worth stating; the model follows the code:

* The rater name is not stored in the session. It is read from the text box
  on every run, and each row carries the name typed at the moment "Next"
  was pressed. Only the empty string is rejected; a name made only of
  spaces is accepted.
* Discovery order is deterministic: the categories in the order high, mid,
  low, and within a category the order of `os.listdir`.
* When `images/<cat>` cannot be listed, `os.listdir` raises and nothing
  catches the exception. The builder then fails (`Screen.Crashed`), and the
  session stays uninitialised. Missing `depthpro/<cat>` or `endodac/<cat>`
  directories only make `isfile` false, so the file is dropped.
* Recording on a completed session is not an error path. The completion
  branch always stops the run, so recording cannot be reached once the
  session is complete.
* The exported sheet starts with a header row. "Finalize" can be pressed
  again, and each press exports the same log.

## Model

| member | source | states |
|---|---|---|
| `TrialSet.CollectImageTriplets` | QT.py:33-56 | The nested loops return exactly `Collected(fs)`: the tuples category by category, or the failure of the first unlistable `images/<cat>` |
| `TrialSet.KeptInMembers` | QT.py:45-54 | A tuple is kept from a listing iff it is built from one listed name under the walked category and that name is a file in all three trees |
| `TrialSet.KeptInAppend` | QT.py:47-54 | Keeping distributes over concatenation of the listing, so kept tuples follow listing order |
| `TrialSet.MatchedMembers` | QT.py:39-54 | Over a run of categories, a tuple is produced iff its category is among them, its paths and `cat`/`f` fields agree, its name is listed and it is in all three trees |
| `TrialSet.MatchedAppend` | QT.py:38-39 | Walking categories one after another concatenates their tuples in that order |
| `TrialSet.CollectFromOutcome` | QT.py:38-56 | The builder succeeds iff every remaining `images/<cat>` is listable, then returns the accumulated list plus the matched tuples; otherwise it fails naming the first unlistable directory |
| `TrialSet.CollectedMembers` | QT.py:40-54 | Soundness and completeness of the returned list: every tuple has all three files present and shares its category and filename with its three paths; every listed file present in all trees is returned |
| `TrialSet.CollectedFailure` | QT.py:39-45 | The builder fails iff one of `images/high`, `images/mid`, `images/low` cannot be listed, and reports the first in walk order |
| `TrialSet.ListedFileKeptIffInAllTrees` | QT.py:45-54 | A listed file is included exactly when it exists in all three trees; otherwise it is dropped without an error |
| `TrialSet.CollectedCategoryOrder` | QT.py:22 | In the returned list, all `high` tuples come before all `mid` tuples, which come before all `low` tuples |
| `Shuffle.PermutePreservesMultiset` | QT.py:79-81 | Shuffling by any index permutation keeps the length and the multiset of the collected triplets |
| `Session.Assign` | QT.py:120-133 | Each slot's label names the model whose depth map that slot displays; the two labels are distinct and are exactly {DepthPro, EndoDac}; slot A is DepthPro iff the draw put "A" first |
| `Session.ChosenModelIsProvenance` | QT.py:153-157 | Under both assignments the resolved label names the model whose map the chosen slot holds under that same assignment, i.e. as displayed in the run the click triggers; it is DepthPro iff the draw and the chosen slot agree |
| `Session.ChosenModelFromPath` | QT.py:124-133 | For a collected triplet the recorded label is DepthPro exactly when the chosen slot displayed `dp_path` |
| `Session.ExportRoundTrip` | QT.py:91-94 | The sheet has a header row plus one row per response, and reading it back yields the response log in order |
| `Session.SurveySession.constructor` | QT.py:76 | A new session has no `triplets_list` yet, a cursor of 0 and an empty log |
| `Session.SurveySession.IsComplete` | QT.py:86 | The session is complete exactly when the log holds one row per pool item |
| `Session.SurveySession.Start` | QT.py:76-83 | Initialisation sets the pool to the collected triplets permuted, with the same multiset; the cursor to 0; the log to empty |
| `Session.SurveySession.RecordAndAdvance` | QT.py:153-160 | Appends exactly one row `[rater_name, filename, cat, chosen_model]` for the item at the cursor, with the label of the chosen slot; increments the cursor by 1; leaves the pool and earlier rows unchanged; keeps `len(responses) == current_idx <= len(pool)` |
| `Session.SurveySession.Render` | QT.py:61-161 | A run without a name ends at the name check and changes nothing; with a name it never does. The pool is built only when none exists, and a builder failure (and only that) crashes the run, changing nothing; otherwise the session is initialised afterwards. A complete session always ends on the completion screen and only exports the log. On an incomplete session, "Next" always records one row for the current item, resolved through this run's draw, and advances by one; without "Next" the current item is shown under this run's draw and nothing changes. The pool never changes once built |
| `Session.SurveySession.RenderPinned` | QT.py:120-160 | Corrected run: the first display of an item pins its draw, later runs show the item under the pinned draw, and "Next" records the label resolved through the pinned draw, then releases it. Otherwise as `Render`: an empty name is refused with nothing changed; an unlistable directory crashes with exactly `Collected`'s error; a first run sets the pool to the shuffle of the collected triplets (same multiset); an exhausted pool finishes, keeping pool, log, position and pin, with the exported sheet exactly when "Finalize" is pressed |
| `Session.ShowThenRecordPinned` | QT.py:146-160 | With the draw pinned, showing an item and then pressing "Next" always records, and the row carries the rater's name, the shown item's file name and category, and the label of the chosen slot as the rater saw it, naming the model whose map that slot displayed |
| `Session.DemoCollected` | QT.py:45-56 | On a disk where `a.png` is in all three `high` trees and `b.png` lacks its EndoDac map, the pool is exactly the `high/a.png` tuple |
| `Session.StaleDrawAsWritten` | QT.py:120-160 | As written, a rater who sees DepthPro in "Option A" and picks it gets EndoDac recorded when the rerun's draw swaps the slots |
| `Session.PinnedDrawCorrected` | QT.py:120-160 | With the pinned draw, the same two runs record DepthPro, the model the rater picked |

## Left out

* Streamlit rendering, widgets, `st.stop` and `st.experimental_rerun`. Only their effect is modelled: a run ends at the name check, at completion, or after recording.
* PIL image loading (QT.py:115, 140, 143), which is foreign I/O.
* Writing the `.xlsx` file (QT.py:94). The sheet is modelled as a table of strings; serialisation and write failures are not modelled.
* `send_results_email` (QT.py:166-204), which is SMTP/SSL network I/O with a catch-all handler.
* `random.shuffle` and the A/B draw. They are parameters, and their uniformity is not modelled.
* Rendering paths as strings. `os.path.join` is modelled as appending a component, and the file names `os.listdir` returns contain no separator.
* Session.SurveySession.Render: the A/B draw is an argument of each run. As in the script, the run that "Next" triggers draws afresh and resolves the choice through that draw, not the one the rater saw (see Findings).

## Findings

| source | as written | input that shows it | evidently intended | confidence | as-written member | corrected member |
|---|---|---|---|---|---|---|
| QT.py:120-121, QT.py:153-157 | Clicking "Next Image" reruns `main()`, which calls `random.shuffle(pos_order)` again before resolving `chosen` through the new `modelA_label`/`modelB_label`; the rater chose on the previous run's display | One item `high/a.png`; the run that displays it draws `pos_order[0] == "A"` (Option A = DepthPro), the rater picks Option A, the run the click triggers draws `pos_order[0] == "B"`: the row records EndoDac | The slot assignment is drawn once per item and the choice is resolved through the assignment the rater saw, so the row records DepthPro | high; not executed | `Session.StaleDrawAsWritten` | `Session.SurveySession.RenderPinned`, `Session.ShowThenRecordPinned`, `Session.PinnedDrawCorrected` |
