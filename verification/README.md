# Zona Cero Scavenger — salvage bookkeeping and match rule

A Dafny model of the game core of the browser mini-game *zona-cero-scavenger*.
A drone scans a camera frame and an image classifier labels it. The player
then "salvages" the objects on a fixed checklist (bottle, cup, book). The
model covers three parts of `script.js`:

- **Session state** (`Game.state`, `Game.salvage`, `Game.checkWinCondition`).
  The state is an ordered checklist of objectives `{name, found}` and the
  append-only inventory `found_items`. A salvage looks the name up. If the
  objective exists and is still open, the salvage flags it found and
  appends its name. When every objective is found, scanning is disabled.
  - `Session.State` and the function `Session.Salvaged` give this as values.
  - The class `Session.Game` updates the same state in place. Its
    `Salvage` method is proved against `Salvaged`. Its scan methods are
    specified by the lock flags and by `Objectives.AllFound`, the
    `every(o => o.found)` test of `checkWinCondition`.
  - The class invariant `Game.Valid` says three things. The inventory is a
    repeat-free record of exactly the found objectives. A pending scan holds
    the lock. A completed checklist keeps scanning disabled.
- **Match rule** (`UI.displayScanResults`), in module `Matching`. Each
  classifier prediction becomes a row:
  - The caption is the text before the first comma of `className`.
  - The confidence is an integer percent.
  - The row offers the first open objective, in checklist order, whose
    name occurs in the caption, provided the confidence is above 40.
  - Matching is case-sensitive. Upper-casing happens only on screen.
  - An empty result list shows the interference notice and offers nothing.
- **Scan lock** (`Game.scanFrame`). A scan disables the scan button and
  waits for the classifier. When the classifier answers, the scan fills the
  results panel and releases the lock. The wait is split into
  `Game.BeginScan` and `Game.FinishScan`. The classifier's answer is a
  parameter of `FinishScan`, so that salvages can happen in between.

Details of `script.js` that the model keeps:

- A row matches an objective when the objective's name occurs inside the
  caption (`includes`, script.js:52), not the other way round.
- The comparison is case-sensitive. `"Cup".includes("cup")` is false.
- A row offers the first matching open objective in checklist order
  (`find`, script.js:52), whatever the other predictions say.
- Salvage happens only when the player clicks an offered row
  (script.js:56).
- A scan has no battery, energy or time cost.

## Model

| member | source | states |
|---|---|---|
| `Objectives.Initial` | script.js:141-145 | the starting checklist has three objectives with distinct names, none of them found |
| `Objectives.IndexOf` | script.js:185 | the salvage lookup returns the first objective with that name, or nothing exactly when no objective has it |
| `Matching.Label` | script.js:49 | the caption is a prefix of `className`, contains no comma, and stops only at a comma or at the end |
| `Matching.LabelIsTextBeforeFirstComma` | script.js:49 | the caption is exactly the text before the first comma (any cut at the first comma equals it) |
| `Matching.FirstSalvageable` | script.js:52 | the match lookup returns the first objective satisfying the `find` filter `Salvageable` (open, and its name occurs in the caption), or nothing exactly when none does |
| `Matching.Includes` | script.js:52 | `includes` is true exactly when the word occurs at some position of the text |
| `Matching.Offer` | script.js:52-53 | an objective is offered iff the confidence is above 40 and some open objective's name occurs in the caption; the offered one is open, its name occurs in the caption, and no earlier objective qualifies |
| `Matching.RowFor` | script.js:47-57 | a row keeps the confidence, its caption is `Label` of `className` (the text before the first comma), and it offers exactly the name of the objective `Offer` picks, nothing when `Offer` picks none |
| `Matching.DisplayScanResults` | script.js:40-60 | an empty result list gives the interference notice; otherwise one row per prediction, in order, each the row `RowFor` specifies |
| `Matching.NothingOfferedWhenComplete` | script.js:52-53 | once every objective is found, no row offers anything |
| `Matching.LowConfidenceNeverOffered` | script.js:53 | a prediction at 40% or less is never offered |
| `Matching.BottleOffered` | script.js:48-56 | "pop bottle, soda bottle" at 81% shows "pop bottle" and offers the bottle of the starting checklist |
| `Matching.ExactNameOffered` | script.js:49-53 | a confident prediction whose class name is exactly an open objective's comma-free name offers that objective when no earlier objective matches it |
| `Matching.StartingRowsOffered` | script.js:47-57 | against the starting checklist, predictions "bottle", "cup" and "book" at 90% give rows offering bottle, cup and book |
| `Matching.CapitalisedCupNotOffered` | script.js:52 | "Cup" at 90% offers nothing: matching is case-sensitive |
| `Session.Start` | script.js:140-147 | the starting state is consistent, has an empty inventory and is not complete |
| `Session.Salvaged` | script.js:184-193 | a salvage keeps the checklist's length, and the inventory gains exactly `name` at its end when the checklist changed and is untouched otherwise |
| `Session.SalvageFrame` | script.js:185-188 | a salvage never reorders, renames or unflags an objective; the only objective it can change is one of that name, and only to found |
| `Session.SalvageOpen` | script.js:185-188 | salvaging the objective of that name while it is open sets its `found` and appends exactly its name |
| `Session.SalvageClosed` | script.js:185-186 | salvaging a name that is absent or already found changes nothing |
| `Session.SalvageIdempotent` | script.js:184-192 | salvaging the same name twice has the effect of salvaging it once |
| `Session.SalvageClosesName` | script.js:185-188 | with unique names, a salvage removes exactly that name from the open names, and the inventory grows by that name exactly when it was open |
| `Session.SalvagePreservesConsistent` | script.js:184-188 | the inventory stays a repeat-free list of exactly the found objectives' names |
| `Session.WinIffInventoryComplete` | script.js:194-195 | under the invariant, `AllFound` (`every(o => o.found)`) holds iff every objective's name is in the inventory |
| `Session.ReplayRecords` | script.js:184-188 | after any sequence of salvage clicks, the inventory is what `Recorded` gives: each click on an open name appends it and closes it |
| `Session.RecordedAppendsFirstOccurrences` | script.js:188 | recording appends, in order, the first click on each open name to the old inventory |
| `Session.ReplayInventory` | script.js:184-188 | after any sequence of salvage clicks, the inventory is the old one followed by the first click on each objective that was open, in click order |
| `Session.ReplayConsistent` | script.js:184-188 | any sequence of salvage clicks keeps the inventory consistent with the checklist |
| `Session.OfferedRowSalvages` | script.js:52-56 | clicking an offered row against the same checklist always salvages: the inventory grows by the offered name |
| `Session.Game.constructor` | script.js:139-147 | a new session holds the starting state, the lock is free and no scan is pending |
| `Session.Game.CheckWinCondition` | script.js:194-200 | scanning becomes disabled when every objective is found and is otherwise left as it was |
| `Session.Game.Salvage` | script.js:184-193 | the new state is `Salvaged` of the old, the invariant holds, and scanning is disabled when the salvage completes the checklist |
| `Session.Game.BeginScan` | script.js:176-178 | a click while the button is disabled is ignored; otherwise the button is disabled and a scan is pending; the checklist and inventory are untouched |
| `Session.Game.FinishScan` | script.js:179-182 | the panel shows the rows for the results against the current checklist, the pending scan ends, and scanning is re-enabled only if the checklist is incomplete |
| `Session.Game.FinishScanAsWritten` | script.js:179-182 | as written: the panel is filled and the button is re-enabled unconditionally; the invariant still holds unless the checklist is complete |
| `Session.StartFullySalvaged` | script.js:184-191 | salvaging bottle, cup and book in that order completes the starting checklist |
| `Session.ScanThenRescan` | script.js:176-182 | a fresh session scans once, its rows offer bottle, cup and book, and a second scan is then pending with those rows still on the panel |
| `Session.CompletionDuringScan` | script.js:176-199 | with the as-written release, clicking the previous scan's offered rows during a pending scan completes the checklist, and the button ends enabled although every objective is found |

## Left out

- `UI.init`, `updateHUD`, `logAction`, `showGame`, `showBootMessage`: DOM rendering, log messages and event wiring. These are presentation only.
- `Camera` (`start`, `renderLoop`, `applyFilters`): hardware access and floating-point pixel filters with random noise.
- `AI.init` and `AI.classifyImage`: calls into the mobilenet library. Their answer is the `results` parameter of `Game.FinishScan`. It is empty when no model is loaded or classification fails.
- `Game.init`: the timed boot sequence. A `Game` starts in the state the boot sequence leaves.
- `Math.round(probability * 100)`: floating-point rounding. The integer percent is taken as given.
- A `null` result list (`!results`): `AI.classifyImage` always returns a list, so only the empty list is modelled.
- `Game.Salvage`: takes the objective's name rather than the objective object that the row's click handler captured. The source looks the objective up by name again, so only the name matters.
- Aliasing between checklist entries and the objects held by click handlers is not modelled. A flag update is a reassignment of the `objectives` sequence.

## Findings

| source | as written | input that shows it | evidently intended | confidence | as-written member | corrected member |
|---|---|---|---|---|---|---|
| script.js:182 | when a scan finishes, `scanButton.disabled = false` runs whatever the checklist says | during a pending scan, click the offered rows left from the previous scan until the last objective is salvaged; `checkWinCondition` disables the button, then the finishing scan enables it again | once every objective is found, scanning stays disabled (script.js:198) | high, not executed | `Session.CompletionDuringScan` | `Session.Game.FinishScan` |
