# A verified model of saknussemm

saknussemm corrects the OCR text of digitised pages without ever moving text between physical lines.
This project models its core in Dafny and proves what the library is for: every physical line keeps
its identity and gets exactly one terminal decision; a line that has gone back to its source text
stays there; the two halves of a hyphenated word are decided alike; an edit stays within its budget;
the published edit script replays as decided; and the ALTO lines it rewrites tile their boxes and
read back as decided.

`dafny verify dfyconfig.toml` checks the whole project (Dafny 4.11).

## How it is laid out

| part of the library | modules |
|---|---|
| token and line alignment | `Levenshtein`, `Corridor`, `Alignment`, `PageAlignment` |
| hyphen units and linking | `UnionFind`, `Units`, `Pairing`, `LinkedUnits`, `CrossPage`, `BreakMarks` |
| chunk planning | `Plan`, `WindowPlanner`, `LinePlanner`, `BlockPlanner`, `PagePlanner` |
| routing and batching | `Routing`, `Batching` |
| the run | `Decide`, `Agreement`, `RunState`, `Validator`, `Retry`, `Reconcile`, `Hyphenation`, `Outcome`, `Descent`, `Driver`, `Finalize`, `Pipeline` |
| edit scripts | `Editing`, `Capture`, `EditScripts`, `Publication` |
| the ALTO rewriter and reader | `Tokens`, `Geometry`, `TextLines`, `LineRebuild`, `ReadingOrder` |

Lines are values held in maps and sequences that methods reassign, as the manifests are fields the
library reassigns. What the library keeps in objects is a class here: the run context, the chunk
budget, the union-find forest, the finalisation token, the TextLine element. Everything the core
calls but does not contain is an arbitrary function in `RunState.Env`: what each producer call comes
back with, the cancellation probe, the line guards, the pair checks and the pair reconciler, the
router, the document-wide guards, the image caps. A theorem about a run is a theorem for all of them.
Costs and weights are exact rationals, so the library's 1e-9 tolerance is equality.

The run context carries a ghost history: what the lines were after every write. `Put` is the only way
the lines change, and it admits only what outlives the lines as they are, so statements about a whole
run are about every point of that history.

## Model

| member | source | states |
|---|---|---|
| `Levenshtein.CharSimilarity` | src/saknussemm/core/alignment.py:39-62 | The two-row loop computes one minus the edit distance over the longer length, 1 for equal texts and 0 when one is empty. |
| `Levenshtein.DistanceIsFewestEdits` | src/saknussemm/core/alignment.py:39-62 | The distance is the fewest insertions, deletions and substitutions that turn one text into the other: some edits reach it, and none do with less. |
| `Levenshtein.SimilarityRange` | src/saknussemm/core/alignment.py:39-62 | The similarity lies in [0, 1] and is 1 exactly for equal texts. |
| `Corridor.RowStep` | src/saknussemm/core/alignment.py:142-152 | From one row of the table to the next neither edge of the corridor moves back, and the next row starts inside the one before it. |
| `Corridor.RowRange` | src/saknussemm/core/alignment.py:142-152 | Every row holds a column, none past the last, and both corners of the table are held, for every band at least as wide as the length difference. |
| `Alignment.FillCostBand` | src/saknussemm/core/alignment.py:155-211 | Filling the ragged rows in place leaves a table in which every held cell satisfies the recurrence over its held neighbours. |
| `Alignment.Reached` | src/saknussemm/core/alignment.py:155-211 | Every cell the corridor holds has a finite cost. |
| `Alignment.NoPathIsCheaper` | src/saknussemm/core/alignment.py:155-211 | No monotone path inside the corridor from a cell to the far corner costs less than the table separates the two cells. |
| `Alignment.ZeroMatchIsNotAlone` | src/saknussemm/core/alignment.py:293-317 | A substitution of two tokens with nothing in common is never the only tight step, so refusing it leaves another. |
| `Alignment.SomeTightStep` | src/saknussemm/core/alignment.py:293-317 | From every held cell but the first, one of the steps the backtrack may take is tight, and leads to a held cell. |
| `Alignment.Backtrack` | src/saknussemm/core/alignment.py:293-317 | The backtrack ends at the first cell with a cheapest path, never leaves the corridor, matches no two tokens without evidence, and knows whether it touched the edge. |
| `Alignment.AlignTokens` | src/saknussemm/core/alignment.py:244-330 | For every band, the pairs are a monotone alignment inside the corridor of least cost among all inside it; no zero-similarity match; the exhaustion flag says whether the edge was touched. |
| `Alignment.AlignUnbanded` | src/saknussemm/core/alignment.py:244-330 | Without a band: every index of either side is used exactly once, in order, at the least cost of any alignment at all; the score lies in [0, 1] and is 1 exactly for equal, non-empty sequences. |
| `Alignment.CharSimilarityMeasures` | src/saknussemm/core/alignment.py:39-62 | `char_similarity` meets what the unbanded alignment asks of a measure. |
| `Alignment.UsesEveryIndexOnce` | src/saknussemm/core/alignment.py:293-323 | Any alignment uses every source index and every target index exactly once, in increasing order. |
| `Alignment.UnbandedHoldsEverything` | src/saknussemm/core/alignment.py:279-282 | Without a band no alignment leaves the corridor, so the least cost inside it is the least cost. |
| `Alignment.ScoreOneMeansEqual` | src/saknussemm/core/alignment.py:319-330 | The score of a cheapest alignment lies in [0, 1], and is 1 exactly when the sequences are equal and not empty. |
| `PageAlignment.Evidence` | src/saknussemm/core/page_alignment.py:77-105 | Line similarity lies in [0, 1] and is positive exactly when the lines share a token or are both blank and differ by at most two tokens. |
| `PageAlignment.MatchesMoveForward` | src/saknussemm/core/page_alignment.py:137-168 | The matches of an alignment strictly increase on both sides. |
| `PageAlignment.AlignPageLines` | src/saknussemm/core/page_alignment.py:137-168 | A strictly increasing partial injection of source lines into returned lines, each pair vouched for by a shared token, whose unclaimed lines are the exact complement in order. |
| `UnionFind.Halve` | src/saknussemm/core/units.py:86-90 | Path halving keeps every tree, every representative and the strict growth of ranks, so a search ends. |
| `UnionFind.Link` | src/saknussemm/core/units.py:92-95 | Hanging one root under another joins exactly the two trees. |
| `Units.DeriveHyphenGroups` | src/saknussemm/core/units.py:67-131 | The groups are exactly the connected components of at least two lines, each once, members in reading order, with true marks for spanning pages, explicitness and completeness. |
| `Units.JoinedAll` | src/saknussemm/core/units.py:97-106 | Once every pointer is read, two lines share a representative exactly when no pointer-closed set separates them. |
| `Units.UnitsContaining` | src/saknussemm/core/units.py:154-192 | Returns exactly the seeds and every line of the pool that shares a unit with one of them, once each. |
| `Units.ClosureIsIdempotent` | src/saknussemm/core/units.py:154-192 | Asking again for what travels with the answer adds nothing. |
| `LinePlanner.SplitSevers` | src/saknussemm/core/units.py:195-251 | Severing a forward link removes exactly that direction from both ends; what the tail continues and what continues the head's word are kept. |
| `Pairing.LinkHyphenPairs` | src/saknussemm/core/pairing.py:306-424 | The loop in place makes of the text-bearing lines what the two-line rule makes of each with the next; blank lines are stepped over and untouched. |
| `Pairing.LinkPairShapes` | src/saknussemm/core/pairing.py:350-424 | Linking a line with its candidate gives both the roles and pointers of a link, whatever roles they had. |
| `Pairing.LinkingShapesEveryLine` | src/saknussemm/core/pairing.py:306-424 | On any unlinked page and any pairing policy, every text-bearing line's role and pointers are determined by whether its two neighbours linked with it. |
| `Pairing.LinkedPageIsShaped` | src/saknussemm/core/pairing.py:306-424 | After linking, one line continues onto another exactly when the other points back; links run downwards over blank lines only. |
| `LinkedUnits.UnitIsARun` | src/saknussemm/core/pairing.py:306-424 | Every unit of the linked page is a maximal run of consecutive text-bearing lines: the first keeps its parsed role, which opens a word; inner lines are BOTH; the last is PART2 if and only if its parsed role opens no word. |
| `LinkedUnits.RunRoles` | src/saknussemm/core/pairing.py:336-424 | The roles along such a run. |
| `LinkedUnits.BlankIsAlone` | src/saknussemm/core/pairing.py:324-335 | A blank line is a unit of its own. |
| `Pairing.UnitMayEndInBoth` | src/saknussemm/core/pairing.py:336-424 | A unit need not end in PART2: when the second of two lines opens a word itself and nothing follows, it ends as a BOTH with an empty forward slot. |
| `BreakMarks.PreservingRespellsTheMarkOnly` | src/saknussemm/core/pairing.py:65-89 | Keeping the source's break mark changes at most that one character, changes nothing when done again, and makes a correction that ends in a mark end in the source's. |
| `CrossPage.LinkCrossPageHyphens` | src/saknussemm/core/pairing.py:481-515 | Linking foot to head over all text-bearing pages keeps the document linked, whatever the policy. |
| `CrossPage.SeamKeepsLinked` | src/saknussemm/core/pairing.py:481-515 | One seam's link keeps every link of the document mutual, a promoted head excepted in the one way the code leaves it. |
| `CrossPage.DocumentIsLinked` | src/saknussemm/core/pairing.py:306-424 | Pages each linked on their own make a linked document. |
| `CrossPage.PagesAreReady` | src/saknussemm/core/pairing.py:481-515 | Linking page by page prepares exactly what linking across pages needs: open feet and heads, and distinct pages in order. |
| `Plan.Downgrade` | src/saknussemm/core/planner.py:46-51 | The next granularity is one level finer, and there is none exactly at LINE. |
| `WindowPlanner.UnitReach` | src/saknussemm/core/planner.py:63-102 | Returns the window's own end exactly when no forward link leaves it, and otherwise reaches over positions that links from inside cross. |
| `WindowPlanner.CutWindow` | src/saknussemm/core/planner.py:325-381 | A window's core keeps to the size and character caps unless it is one line; it extends past the core only over positions a link crosses, ends where links do or at the caps, and never past the line cap. |
| `WindowPlanner.CutWindows` | src/saknussemm/core/planner.py:325-381 | The walk ends, and every line of the page is in some window's core. |
| `WindowPlanner.AssignWindowTargets` | src/saknussemm/core/planner.py:124-177 | Every line is sent to one window that holds it, and the members of a unit that some window holds are sent to one. |
| `WindowPlanner.TryWindow` | src/saknussemm/core/planner.py:308-398 | Every line is a target of exactly one window, windows cover the page within the caps, every anchored unit is targeted by a single window, and under the finest configuration a window carries only what is anchored. |
| `WindowPlanner.AnchoredFits` | src/saknussemm/core/planner.py:63-102 | A window with the anchor in its core holds the whole anchored stretch, whatever the configuration. |
| `WindowPlanner.FinestHoldsAnchored` | src/saknussemm/core/planner.py:63-102 | Cut into single lines and as few more as the planner allows, a window holds only what is anchored: being anchored is the exact condition over all configurations. |
| `WindowPlanner.ForwardIsBridged` | src/saknussemm/core/planner.py:63-102 | A unit whose pointers are all forward links is bridged from its first line, and anchored when it spans at most eleven positions. |
| `WindowPlanner.LinkerUnitsAreForward` | src/saknussemm/core/planner.py:63-102 | On a page as the linker leaves it, every unit is of that kind. |
| `WindowPlanner.PromotedHeadIsNotAnchored` | src/saknussemm/core/pairing.py:367-381 | A promoted head and the line that points back at it are a unit of two on a well-linked page that is not anchored, so the planner can part it. |
| `LinePlanner.PlanLine` | src/saknussemm/core/planner.py:406-486 | Chunks are consecutive segments of the page, each within the line cap, each line targeted once; the lines afterwards differ by exactly the severed links, which are the recorded splits. |
| `LinePlanner.PlanSeversWhatItRecords` | src/saknussemm/core/planner.py:406-486 | Afterwards no live link joins two planned lines in different chunks, the links that survive are those not cut and still mutual, and the splits are the cuts in order. |
| `LinePlanner.SurvivingLinks` | src/saknussemm/core/units.py:195-251 | After a set of cuts, one line continues onto another exactly when it did and the link was not cut. |
| `LinePlanner.CutsKeepMutual` | src/saknussemm/core/units.py:195-251 | Cutting links keeps the rest pointed back, and mutual where they were. |
| `BlockPlanner.TryBlock` | src/saknussemm/core/planner.py:214-300 | Chunks of whole blocks, within the caps, each line targeted once, and no hyphen unit parted. |
| `PagePlanner.PlanPage` | src/saknussemm/core/planner.py:494-530 | Whatever granularity is chosen, each line is handed to exactly one chunk, the forced level is honoured, links are severed only at LINE, block chunks part no unit, and page and window chunks no anchored one. |
| `Routing.ScorePage` | src/saknussemm/core/routing.py:111-144 | Only lines without a hyphen role are skipped, and a line is escalated with its whole unit or not at all. |
| `Routing.ConfirmSkipped` | src/saknussemm/core/routing.py:147-169 | Every skipped line is decided at its own text, and nothing else is touched. |
| `Routing.WorkItems` | src/saknussemm/core/routing.py:172-218 | The items target exactly the planned lines but the skipped, each once, and by tier. |
| `Routing.TiersDivideNothing` | src/saknussemm/core/routing.py:111-144 | No unit wholly on the page is targeted by both producers. |
| `Routing.RouteChunks` | src/saknussemm/core/routing.py:47-108 | Whatever is not skipped stays a target exactly once, what is skipped is decided, and no unit wholly on the page is divided between producers. |
| `Batching.SplitIntoBatches` | src/saknussemm/core/batching.py:86-129 | The batches hold every wanted line once, within the cap, unit by unit; refused exactly when some wanted line's unit exceeds the cap. |
| `Batching.PageUnits` | src/saknussemm/core/reconcile.py:113-179 | The table sends each line of a unit of several (all of it here, when asked) to the names of its unit on the page. |
| `Batching.SplitForImageCap` | src/saknussemm/core/batching.py:32-130 | The same lines stay targets, each call is within its producer's cap and parts no unit its chunk held, and the run is refused exactly when some unit with wanted lines fits no call. |
| `Batching.FittingIsNotTooLarge` | src/saknussemm/core/batching.py:32-130 | A cap no smaller than any unit of the document refuses nothing. |
| `Validator.Validate` | src/saknussemm/core/validator.py:66-207 | An answer is refused as malformed exactly when an entry is unsound, an id is repeated or unknown, the count is off, or a required line is missing; otherwise its texts are those of its entries, and only the pair check can still refuse it. |
| `Retry.ChunkBudget.Spend` | src/saknussemm/core/retry.py:113-118 | Spending takes exactly the attempts made. |
| `Retry.ClassifyRetry` | src/saknussemm/core/retry.py:35-93 | A first broken pair is retried at once and pins the temperature; every recoverable failure, a second broken pair included, is retryable. |
| `Retry.AttemptChunk` | src/saknussemm/core/attempt.py:488-585 | At most as many calls as allowed are made; an answer covers every target; no answer means every allowed call was used; everything captured stays faithful. |
| `Retry.CaptureKeepsAll` | src/saknussemm/core/attempt.py:297-346 | Capturing a validated answer keeps every captured line faithful to the ops that made its text. |
| `RunState.RunContext.Put` | src/saknussemm/core/decide.py:69-132 | Lines change only to what outlives them, and every change is on the run's record. |
| `RunState.FallbackAbsorbs` | src/saknussemm/core/decide.py:94-120 | A line fallen at any point of a run is fallen at every later point, at its source text, with the reason first recorded. |
| `Decide.LaterTransitive` | src/saknussemm/core/decide.py:69-132 | What every step keeps of a line is kept over any number of steps. |
| `Reconcile.PairSharesItsFate` | src/saknussemm/core/reconcile.py:200-295 | Joining a pair gives both lines one status whatever they were before, and never revives a fallen one. |
| `Reconcile.ThreeLinesMayEndMixed` | src/saknussemm/core/reconcile.py:468-506 | A unit of three may end mixed: the first join stands, the second falls and takes the middle line along. |
| `Reconcile.ChainEndsInPrefix` | src/saknussemm/core/reconcile.py:468-506 | A word walked down its lines ends as a corrected prefix and a suffix at its source. |
| `Reconcile.ClaimJoins` | src/saknussemm/core/reconcile.py:368-435 | The claimed joins are exactly those a target opens on its page or closes from another, and both ends are in the pool. |
| `Reconcile.OneHead` | src/saknussemm/core/reconcile.py:368-435 | No two tails claim one head. |
| `Reconcile.PathBecomesChain` | src/saknussemm/core/reconcile.py:468-506 | Visiting the members of a path unit in order makes of the lines exactly what walking them down as one word makes. |
| `Reconcile.WalkUnits` | src/saknussemm/core/reconcile.py:468-506 | Every claimed join is made once, both its lines end alike, no pair is parted, and each group's lines are what walking its members makes of them, independently of the other groups. |
| `Reconcile.OwnedUnitEndsInPrefix` | src/saknussemm/core/reconcile.py:468-506 | In the document after the walk, a unit all of whose joins the chunk owns is a corrected prefix and a suffix at its source. |
| `Reconcile.ReconcileChunk` | src/saknussemm/core/reconcile.py:308-359 | Afterwards a target is still undecided only if no join of it is left for this chunk; nothing fallen is revived and no pair parted. |
| `Hyphenation.KeptMeansCoherent` | src/saknussemm/core/hyphenation.py:283-392 | A pair's corrections stand if and only if they are coherent, also with the full word resolved; deciding again decides the same. |
| `Hyphenation.NothingIncoherentStands` | src/saknussemm/core/hyphenation.py:283-392 | Along a whole word, any two neighbouring lines left corrected show their sources or are coherent: the first still breaks off, the second gained no word, nothing migrated, and a full word vouched for is the one they spell. |
| `Hyphenation.OwnedUnitHolds` | src/saknussemm/core/hyphenation.py:283-392 | The same in the document, for a unit all of whose joins the chunk owns. |
| `Agreement.JoinKeeps` | src/saknussemm/core/reconcile.py:200-295 | Deciding tail and head of a live link together parts no pair that stands apart. |
| `Agreement.FallKeeps` | src/saknussemm/core/outcome.py:160-230 | Lines falling together with every pair they touch part none. |
| `Agreement.AcceptKeeps` | src/saknussemm/core/acceptance.py:111-199 | Deciding one undecided line with no join left parts no pair. |
| `Agreement.CutKeeps` | src/saknussemm/core/units.py:195-251 | Severing links of undecided lines on a page parts no pair. |
| `Agreement.PairsShareTheirFate` | src/saknussemm/core/reconcile.py:200-295 | In any consistent document with every line decided, the two lines of a unit of two have one status. |
| `Outcome.AcceptLines` | src/saknussemm/core/acceptance.py:111-199 | Every target not yet decided is decided, by the orphan, partner and line guards in that order. |
| `Outcome.AcceptLine` | src/saknussemm/core/acceptance.py:111-199 | A line is accepted only with the text the guard accepts, keeps its break mark if it opens a word, and otherwise shows its source. |
| `Outcome.FinishChunk` | src/saknussemm/core/outcome.py:63-117 | A finished chunk closes all its targets: each decided, every pair alike, nothing of other pages without a role touched. |
| `Outcome.ApplyChunkFallback` | src/saknussemm/core/outcome.py:160-189 | Every target of a failed chunk falls, with its unit as far as the page reaches, and no pair is parted. |
| `Outcome.AbsorbChunkError` | src/saknussemm/core/outcome.py:192-230 | What an interrupted chunk had decided stands; exactly when something was undecided, that falls with its units; all targets are closed. |
| `Outcome.FallenTogether` | src/saknussemm/core/outcome.py:141-157 | The targets and the members they pull along are the closure of the targets. |
| `Descent.SubPagePointedBack` | src/saknussemm/core/reconcile.py:40-69 | The synthetic page of a chunk's targets is well linked. |
| `Descent.WritingSevers` | src/saknussemm/core/driver.py:385-465 | Writing a plan back severs exactly the links it cut. |
| `Driver.RunChunk` | src/saknussemm/core/driver.py:255-338 | Over a chunk and its whole recursive descent: all targets decided if it completes, only they are closed, attempts are paid from the purse and never overdraw it; the recursion ends because granularity strictly refines. |
| `Driver.HandleChunkFailure` | src/saknussemm/core/driver.py:340-383 | A failed chunk descends only when the failure, the grain and the purse allow, and otherwise falls back whole. |
| `Driver.DescendGranularity` | src/saknussemm/core/driver.py:385-465 | The sub-chunks target exactly the chunk's targets; each pays from one purse; once it is empty the rest fall back. |
| `Driver.RunChunkAbsorbing` | src/saknussemm/core/driver.py:207-253 | With a purse of its own a chunk makes at most the budget's attempts, never leaves it negative, survives every recoverable error, and decides all its targets unless the run stops. |
| `Driver.PlanIsWork` | src/saknussemm/core/planner.py:494-530 | A plan of distinct lines is a work list: each a target of one chunk. |
| `Pipeline.CrossPagePartners` | src/saknussemm/core/indexing.py:77-107 | The partners are exactly the lines of other pages that this page's lines point at. |
| `Pipeline.PlanPageChunks` | src/saknussemm/core/driver.py:162-205 | Planning, routing and batching together hand each line that is not skipped to exactly one item. |
| `Pipeline.ProcessPage` | src/saknussemm/core/driver.py:80-160 | Unless the run stops, every line of the page is decided and closed, and lines of pages to come without a role are untouched. |
| `Pipeline.ProcessPages` | src/saknussemm/core/pipeline.py:488-523 | Page after page, every line of the document is closed; the run stops early only when asked to, when a producer fails for good, or when a unit fits no call. |
| `Finalize.OnlyOneOrder` | src/saknussemm/core/acceptance.py:42-92 | The token lets through exactly one sequence of three passes. |
| `Finalize.ApplyUnitReverts` | src/saknussemm/core/acceptance.py:382-421 | The fallen lines are exactly those flagged and every line of their units. |
| `Finalize.RevertsPartNoPair` | src/saknussemm/core/acceptance.py:382-421 | Reverting whole units parts no pair. |
| `Finalize.PreserveBreakChars` | src/saknussemm/core/finalize.py:55-84 | Respelling break marks changes no status and touches no fallen line. |
| `Finalize.DeriveDecisionSet` | src/saknussemm/core/decisions.py:83-129 | Refuses exactly a document with an undecided line, and otherwise reads off one decision per line in order. |
| `Finalize.FinalizeDocument` | src/saknussemm/core/finalize.py:87-117 | With every line decided the three passes and the derivation never refuse. |
| `Pipeline.RunDocument` | src/saknussemm/core/pipeline.py:388-486 | Over every run: no engine error; a run nothing stops ends with one terminal decision per line; lines fallen at any point are decided so, at source and with the reason first recorded; the two lines of a unit of two are decided alike. |
| `Pipeline.PairsOutlive` | src/saknussemm/core/units.py:67-131 | A unit of two whose link the run did not sever is still a unit of two at its end. |
| `Editing.NormalizeAnchor` | src/saknussemm/core/editing.py:235-268 | An anchor names the one occurrence asked for, or nothing: out of range, ambiguous or absent ones are refused. |
| `Editing.ChangedChars` | src/saknussemm/core/editing.py:283-310 | The scan computes the size of the differing window after the common prefix and then the common suffix. |
| `Editing.ChangedBoundsDistance` | src/saknussemm/core/editing.py:283-310 | What is changed bounds the edit distance, and is nothing only between equal texts. |
| `Editing.KeptDisjoint` | src/saknussemm/core/editing.py:550-581 | The spans a line keeps are in the text, left to right and disjoint. |
| `Editing.ApplySpans` | src/saknussemm/core/editing.py:411-416 | Splicing right to left gives the untouched gaps interleaved with the replacements. |
| `Editing.SpliceBound` | src/saknussemm/core/editing.py:553-591 | The spliced text is within the summed windows of its replacements in edit distance. |
| `Editing.AcceptedWithinBudget` | src/saknussemm/core/editing.py:502-605 | Any accepted line edit is within the budget in edit distance of the source, is not blank, and keeps a broken word's mark. |
| `Editing.ApplyLineOps` | src/saknussemm/core/editing.py:502-605 | The text given a line and the refusals are those of the rules for one line; nothing is refused exactly when every op is kept. |
| `Capture.ApplyEditScript` | src/saknussemm/core/editing.py:637-737 | Line by line: a line is edited exactly when it is known, a target, has the recorded digest and its ops are accepted; a script of another protocol is refused whole. |
| `Capture.ScriptToRaw` | src/saknussemm/core/attempt.py:115-176 | The raw answer is the whole lines as they came, the spans as applied, and the sources of what is left when coverage is not required. |
| `Capture.CaptureOps` | src/saknussemm/core/attempt.py:261-294 | Each target the answer covers and no guard refused is remembered with all its ops and the text they made; other lines keep what they had. |
| `Capture.CapturedIsFaithful` | src/saknussemm/core/attempt.py:261-294 | The ops captured from a validated answer are all the line's ops, and they made the text that was validated. |
| `EditScripts.BuildFinalEditScript` | src/saknussemm/core/report.py:43-117 | The published script carries, per corrected line with captured ops, those ops stamped with the page if they made the final text, a whole line otherwise, and the source's digest. |
| `EditScripts.ReplayGivesDecidedTexts` | src/saknussemm/core/editing.py:637-737 | Replayed page by page on the sources, the script gives a line its decided text or none, whatever the roles, budget and targets, if spans may grow as much as in the run. |
| `EditScripts.LookalikesAreRefused` | src/saknussemm/core/editing.py:682-700 | Over another text, as far as the digest tells, every op of a line is refused. |
| `EditScripts.SmallerRatioPartsWays` | src/saknussemm/core/editing.py:502-605 | For any smaller growth ratio some ops applied without a refusal give another text. |
| `EditScripts.PublishedPartsWays` | src/saknussemm/core/report.py:43-117 | So does a published script: for any two ratios there is a decided line that a replay under the smaller gives another text. |
| `Publication.RunIsPublishable` | src/saknussemm/core/report.py:74-117 | What any run captured meets the standard its published script is held to. |
| `Publication.RunAndPublish` | src/saknussemm/core/pipeline.py:388-486 | Over every finished run, the script it publishes replays as decided and edits no lookalike. |
| `Tokens.TokensAlternate` | src/saknussemm/formats/alto/rewriter.py:84-91 | No token is empty, and words alternate with breaking white space. |
| `Tokens.RenderingCollapses` | src/saknussemm/formats/alto/rewriter.py:84-102 | Reading the tokens back gives the text with every run of breaking white space made one space. |
| `Geometry.ComputeGeometry` | src/saknussemm/formats/alto/rewriter.py:110-183 | Boxes tile the width left to right, each at least one wide, to exactly the larger of the width and the number of tokens; a share below one is raised to one and no other grows; when no token weighs anything each gets an equal floor. |
| `Geometry.RaiseAndRepay` | src/saknussemm/formats/alto/rewriter.py:152-176 | The repayment loop ends; every width is at least one and the total is the larger of the shares' total and their number. |
| `Geometry.SharesSumToTheWidth` | src/saknussemm/formats/alto/rewriter.py:139-150 | Rounding the running total loses nothing: the shares add up to the width. |
| `Geometry.SharesAreFair` | src/saknussemm/formats/alto/rewriter.py:139-150 | A share is the floor or the ceiling of its ideal exactly unless the running total is a tie and the ideal an odd integer; then it is off by one. |
| `Geometry.ShareMayMissItsIdeal` | src/saknussemm/formats/alto/rewriter.py:139-150 | A line seven wide on which a word due exactly one unit gets none. |
| `LineRebuild.SlotsSplitTheLine` | src/saknussemm/formats/alto/rewriter.py:815-840 | The break slot and the text slot are never empty, are the whole line exactly when it is at least two wide, and hold a break space exactly when it is at least three. |
| `LineRebuild.FreshId` | src/saknussemm/formats/alto/rewriter.py:733-739 | The search for an unused id ends and finds one. |
| `LineRebuild.EmitWords` | src/saknussemm/formats/alto/rewriter.py:690-747 | One child a token in its box; each word takes over the id of the String it is matched with or a new one, and no two ids are equal. |
| `LineRebuild.TextLine.Rebuild` | src/saknussemm/formats/alto/rewriter.py:891-1083 | The rebuilt children spell the text; they tile the line box if and only if each token can have a unit of the text's slot (and the line is two wide when it carries its break); ids stay unique and follow a cheapest alignment of old words with new. |
| `LineRebuild.TextLine.RewriteSlowly` | src/saknussemm/formats/alto/rewriter.py:1192-1206 | What is written and what reading it back gives, for lines of every role: the statements of the three lemmas below, of the element itself. |
| `TextLines.Reconstruct` | src/saknussemm/formats/alto/_text.py:91-106 | The reader's loop computes the text child by child, a HYP adding its mark unless the text already ends in one. |
| `LineRebuild.PlainReadsBack` | src/saknussemm/formats/alto/rewriter.py:891-1083 | A line left without HYP reads back as decided, edges stripped and breaking white space collapsed. |
| `LineRebuild.ExplicitReadsBack` | src/saknussemm/formats/alto/rewriter.py:787-812 | A line whose HYP says the decided mark reads back as decided if and only if nothing but the mark is there, or no white space precedes it and the text before it ends in no mark, or the white space may all break and the line is at least three wide. |
| `LineRebuild.BackwardOnlyReadsBack` | src/saknussemm/formats/alto/rewriter.py:891-1083 | A line that continues a marked break and ends in an unmarked one reads back as decided if and only if its text ends in a mark the reader takes with the HYP for one. |
| `TextLines.BrokenLineReadsBack` | src/saknussemm/formats/alto/_text.py:91-106 | The round trip through the reader, exactly when the break survives. |
| `TextLines.NoBreakSpaceIsLost` | src/saknussemm/formats/alto/rewriter.py:542-555 | A no-break space before the mark does not survive, however wide the line. |
| `ReadingOrder.BlocksInReadingOrder` | src/saknussemm/formats/alto/parser.py:198-285 | Always a permutation: document order when ids repeat, a block names itself, two name one successor, or the chains go round; otherwise each successor right after its predecessor and heads in document order. |
| `ReadingOrder.OneReadingOrder` | src/saknussemm/formats/alto/parser.py:198-285 | There is only one such order. |
| `ReadingOrder.UnreachedAreCyclic` | src/saknussemm/formats/alto/parser.py:280-283 | The blocks a finished walk does not reach go round in circles. |

## Findings

Where the code does not do what its documentation or a first reading promises, the model follows the
code. Each has its input and its exact condition among the rows above.

- A unit of three or more lines may end mixed (`Reconcile.ThreeLinesMayEndMixed`): a later join can
  revert the lower half of an earlier one. What does hold is a corrected prefix and a suffix at the
  source texts (`Reconcile.OwnedUnitEndsInPrefix`).
- A unit of the linked page need not end in PART2 (`Pairing.UnitMayEndInBoth`): its last line is PART2
  if and only if its parsed role opens no word (`LinkedUnits.UnitIsARun`).
- Linking across pages can promote the head of a page's own pair to BOTH without a forward pointer
  (`src/saknussemm/core/pairing.py:367-381`). The planner follows forward pointers only, so it can part that
  pair (`WindowPlanner.PromotedHeadIsNotAnchored`). A unit is targeted by a single window under every
  configuration exactly when it is anchored (`WindowPlanner.TryWindow`); every unit spanning at most
  eleven positions whose pointers are all forward links is (`WindowPlanner.ForwardIsBridged`), and so is every
  such unit of a page as the linker leaves it (`WindowPlanner.LinkerUnitsAreForward`).
- Replaying a published script under a smaller growth ratio than the run's can give a line another text
  (`EditScripts.PublishedPartsWays`); under an equal or larger one it cannot.
- The comment at `src/saknussemm/formats/alto/rewriter.py:145-147` says every token gets the floor or the
  ceiling of its ideal share. It is off by one at a tie before an odd ideal share
  (`Geometry.SharesAreFair`, `Geometry.ShareMayMissItsIdeal`).
- A no-break space before an explicit break mark is lost on the slow path (`TextLines.NoBreakSpaceIsLost`);
  `LineRebuild.ExplicitReadsBack` gives the exact condition of the round trip.
- `_write_text_for` asks whether the forward break is explicit and `_rebuild_line` whether the line is
  (`src/saknussemm/formats/alto/rewriter.py:787-812`, `src/saknussemm/formats/alto/rewriter.py:931-934`). They differ
  on a line that continues a marked break and ends in an unmarked one; `LineRebuild.BackwardOnlyReadsBack`
  says when it still reads back.
- The docstring of `_classify_retry` says a second broken pair is not retryable
  (`src/saknussemm/core/retry.py:53-55`); the code retries it like any malformed output (`Retry.ClassifyRetry`).
- The docstring of `ChunkBudget.spend` allows for overspending; with the caps the driver passes, the
  budget is never overdrawn (`Driver.RunChunkAbsorbing`).
- The score of two empty token sequences is 0, although they are equal (`Alignment.ScoreOneMeansEqual`).

## Premises

- Line ids are unique across the document: `src/saknussemm/core/planner.py:432-469` and
  `src/saknussemm/core/outcome.py:152-156` compare bare ids. Page ids differ, a page lists each of its lines
  once, and each line is listed once by the block it names (`Pipeline.DocumentFits`).
- A run starts from a linked document with nothing decided (`Pipeline.Fresh`); `CrossPage.LinkCrossPageHyphens`
  and `CrossPage.PagesAreReady` show that linking an unlinked document gives one.
- A run that nothing stops is one whose cancellation probe never fires and whose producers never fail
  for good (`RunState.Smooth`), over a document each of whose units fits every image cap
  (`Batching.UnitsFit`); any other run is covered up to the point where it stops.

## Left out

- Agreement.PairsShareTheirFate: speaks of units of two lines; longer ones may end mixed, and what holds of them is `Reconcile.OwnedUnitEndsInPrefix`.
- Reconcile.OwnedUnitEndsInPrefix: is about units all of whose joins one chunk owns; a unit reached by several chunks or pages is covered by the pairwise statements only.
- LinePlanner.PlanLine: containment of links in chunks is claimed on pages as the linker leaves them, as the planner's own documentation does; on other pages only the segments, caps, targets and recorded cuts.
- BlockPlanner.TryBlock: does not say exactly when it refuses; a refusal only sends the page on to windows.
- LineRebuild.TextLine.RewriteSlowly: does not say what a line reads as that is BOTH with a marked forward break and an unmarked backward one, nor an ordinary line that keeps stray HYP elements.
- TextLines.Reconstruct: Unicode normalisation is an arbitrary function applied at the end; `clean_content` is an arbitrary function that leaves the words alone where a round trip is claimed.
- Alignment.AlignTokens: the `move_suspected` scan is a diagnostic flag and is not modelled.
- RunState.RunContext.Put: the plan of a descent is written back in one step where the library severs link by link; no decision changes there.
- Hyphenation.KeptMeansCoherent: casefolding is an arbitrary function.
- The fast path of the rewriter (contents replaced in place, nothing else touched), SUBS attributes, loss counters and element attributes other than ids: attribute copying.
- Pair geometry (`PairingPolicy.can_pair`), the line guards of `core/guards.py` and the pair drift check of the validator: arbitrary predicates.
- Parsing and serialising XML, schema validation, the PAGE format, digests, prompts, producers, threads and waiting: I/O and foreign calls.
- Events, traces other than the fallback reason, confidence scores, quality estimates, and reports other than the edit script: descriptive.
