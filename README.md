# scoring_app grading core, in Dafny

This project models the grading logic of `scoring_app`, a desktop tool for scoring exam
questions against a class of students. The model covers the following parts:

- **Score entry and aggregation (`src/ui/grading.rs`).**
  - The digit filter of a score field, and the two coercions of a typed score: absent-if-out-of-range for the database write, clamped for the results-table cache.
  - `calc_final` (a missing score counts as 0, a full score of 0 counts as 1, non-positive weights are skipped) and `is_student_done`.
  - Student navigation, with its clamp and its once-only completion mark, and the focus moves and page hotkeys.
- **The relational store (`src/db.rs`).** The four tables `students`, `questions`, `scores` and `grading_sessions` are maps in a `Db` class. Its operations are:
  - the validation helpers;
  - the all-or-nothing batch upserts;
  - the `INSERT OR IGNORE` cross-join that keeps the score matrix complete;
  - the composite-key `set_score` upsert and the once-only completion mark;
  - the completed and total student counts;
  - `search_students`: `LIKE '%q%'` on id or name, `ORDER BY id`, `LIMIT`.
- **The rating page (`src/ui/rating.rs`).**
  - `calc_final_percent`: undefined as soon as one question is unscored or has a full score of 0. The total covers all weights.
  - First-match bucket counting, the fixed-width histogram, and the editor handlers that keep the ratings sorted by descending threshold.
- **The document-store screens.**
  - The master lists (`src/ui/master_students.rs`, `src/ui/master_questions.rs`): next-id rules, field edits with their fallbacks, bounded delete, clear, and single-list import.
  - The results table (`src/ui/matrix_table.rs`): first-match score lookup, the `filled` flag, the two weighted sums and the display condition.
  - The comment panel (`src/ui/comment_panel.rs`).
  - The save/load bar with `format_json_error` (`src/ui/savebar.rs`).
  - The search popup (`src/ui/search.rs`).
  - The score row (`src/ui/scorerow.rs`).

The three final-score rules in the source deliberately differ, and each is modelled as written:

- `Grading.FinalScore`;
- `Ratings.FinalPercent`;
- `MatrixTable.FinalDisplay`.

The entities of `src/models.rs` are datatypes in module `Models`. `Signal<Config>`, the reactive cell shared by the screens, is the class `Models.ConfigSignal`, whose handlers `modify` it. Loops in the source are Dafny loops proved against a specification function: the grading sums, the completion test, the rating counters, the row builder and the search. Every file's properties are then proved about that function.

Some behaviours of the code are easy to misread, and the model states each as written:

- Search matches the query against both id and name through SQLite's `LIKE` (`src/db.rs:309-311`). That match ignores ASCII case on both columns, so `Store.LikeContains` folds case on both.
- The results-table cache clamps an over-range score into range (`src/ui/grading.rs:384`). The database write stores nothing for the same input (`src/ui/grading.rs:350-355`). `Grading.DbAndCacheCoercions` states exactly where the two differ.
- `calc_final_percent` divides by the sum of all weights, zero and negative ones included (`src/ui/rating.rs:217`). Any unscored question makes the result undefined (`src/ui/rating.rs:220-235`). `Ratings.FinalPercent` follows both rules.
- Clicking a search result whose student is no longer in the list keeps the current student and shows no message (`src/ui/search.rs:68-70`). `Search.Window.OnResultClick` states that.
- `src/models.rs` declares `Config` with `questions`, `students` and `scores` only. `src/ui/rating.rs` and `src/ui/savebar.rs` use `ratings`, `save_path` and `Rating`, so `Models.Config` carries them.

Common Rust library behaviour is written out in module `Common`:

- `trim`;
- `parse::<u32>` and `parse::<i64>`;
- `to_string` of an integer;
- `saturating_add`;
- `clamp`;
- `" ".repeat`.

## Model

| member | source | states |
|---|---|---|
| Common.SaturatingAddU32 | src/ui/master_students.rs:60 | `u32::saturating_add`: the exact sum below 2^32, `u32::MAX` above it, never less than the first operand |
| Common.TrimEmptyIffBlank | src/db.rs:435 | `s.trim().is_empty()` holds exactly when every character of `s` is whitespace |
| Common.ParseU32 | src/ui/master_questions.rs:145 | `parse::<u32>` on a digit string succeeds exactly when it is non-empty and at most `u32::MAX`, giving its decimal value; a success never starts with `-` |
| Common.ParseI64 | src/ui/grading.rs:534 | `parse::<i64>` always lies in the `i64` range; on digit strings it succeeds exactly up to `i64::MAX` with the decimal value |
| Common.NatToString | src/ui/matrix_table.rs:34 | `to_string` gives a non-empty digit string without leading zeros whose decimal value is the number |
| Common.ParseU32OfNatToString | src/ui/master_students.rs:60 | parsing the printed form of a `u32` gives the number back |
| Common.Clamp | src/ui/grading.rs:384 | `clamp(lo, hi)` lies in the range, is the identity inside it and the nearer bound outside |
| Common.FirstIndex | src/ui/search.rs:68 | `position`: an index whose element satisfies the predicate with none before it, and None exactly when no element does |
| Common.Repeat | src/ui/savebar.rs:161 | `" ".repeat(n)` has length `n` and only that character |
| ScoreRow.DigitFilterDigits | src/ui/scorerow.rs:31-35 | the value handed to `on_change` holds only ASCII digits and is never longer than the input |
| ScoreRow.DigitFilterAppend | src/ui/scorerow.rs:33 | the filter distributes over concatenation, so kept characters keep their order |
| ScoreRow.DigitFilterOfDigits | src/ui/scorerow.rs:33 | a digit string passes through unchanged |
| ScoreRow.DigitFilterIdempotent | src/ui/scorerow.rs:33 | filtering twice equals filtering once |
| ScoreRow.DigitFilterCount | src/ui/scorerow.rs:33 | the output length equals the number of digit positions of the input: exactly the non-digits are dropped |
| ScoreRow.OnKeyDown | src/ui/scorerow.rs:37-49 | Enter and ArrowDown, and only they, move to the next question; ArrowUp, and only it, to the previous one; other keys do nothing |
| ScoreRow.OnInput | src/ui/scorerow.rs:31-35 | the emitted value is all digits, and an all-digit input is emitted unchanged |
| Grading.CalcFinal | src/ui/grading.rs:503-522 | the accumulation loop returns `FinalScore`: None without questions or positive weight, else Σ(score/max(full,1)·w)/Σw·100 over the zipped pairs |
| Grading.DenPositiveIff | src/ui/grading.rs:510-515 | the denominator is never negative and is positive exactly when some zipped question has positive weight |
| Grading.FinalScoreNoneIff | src/ui/grading.rs:503-521 | the result is None exactly when there is no question or no zipped question has positive weight |
| Grading.TermBounds | src/ui/grading.rs:516-518 | with the score in 0..full, a question's term lies between 0 and its weight |
| Grading.NumBounds | src/ui/grading.rs:507-519 | with every score in range, 0 ≤ numerator ≤ denominator |
| Grading.FinalScoreBounds | src/ui/grading.rs:510-521 | with every score in 0..full, a defined final lies in [0, 100] |
| Grading.SumsCongruent | src/ui/grading.rs:510-519 | inputs with the same weights and the same counted terms give the same sums |
| Grading.UnweightedQuestionIgnored | src/ui/grading.rs:511-513 | changing the score or the full score of a question with weight ≤ 0 leaves the final unchanged |
| Grading.MissingScoreCountsAsZero | src/ui/grading.rs:516 | a missing score gives the same final as a score of 0 |
| Grading.ZeroFullScoreCountsAsOne | src/ui/grading.rs:517 | a full score of 0 gives the same final as a full score of 1 |
| Grading.IsStudentDone | src/ui/grading.rs:525-543 | true exactly when there are questions, one input per question, and every trimmed input parses as an i64 within 0..full |
| Grading.ScoreForDb | src/ui/grading.rs:342-359 | the database value is Some(n) exactly when the digit-filtered input is non-empty with value n ≤ full; otherwise None; never above full |
| Grading.CacheScore | src/ui/grading.rs:378-388 | the cache value is always absent or within 0..full; on digits it is present up to `i64::MAX` and equals min(value, full) |
| Grading.DbAndCacheCoercions | src/ui/grading.rs:350-388 | on digits the two coercions agree exactly when the value is ≤ full or exceeds `i64::MAX`; in between the database gets None and the cache shows full |
| Grading.DoneStoresCachedScores | src/ui/grading.rs:342-388 | for a done student with digit inputs, every database value is present and equals the cached one |
| Grading.CachedScores | src/ui/grading.rs:376-389 | one score per question, each absent or within that question's 0..full |
| Grading.ParseCachedScores | src/ui/grading.rs:376-389 | the loop building `scores_opt` returns `CachedScores` |
| Grading.UpdatedRow | src/ui/grading.rs:367-392 | the refreshed row keeps id, name and cell count; its final, when shown, lies in [0, 100] |
| Grading.RecomputeRow | src/ui/grading.rs:367-392 | the in-place cache update returns `UpdatedRow` |
| Grading.PageHotkey | src/ui/grading.rs:257-271 | F/f and only they open search; L/l and only they go to the next student; J/j and only they to the previous one |
| Grading.InitialRows | src/ui/grading.rs:40-59 | no rows while either list is empty; otherwise one row per student, in order, with its id and name, an empty cell per question and no final |
| Grading.GradingPage.constructor | src/ui/grading.rs:40-89 | the loaded lists, the table rows of `InitialRows`, one empty input per question, focus and student index 0, popup closed |
| Grading.GradingPage.OnChange | src/ui/grading.rs:335-394 | the input slot changes; the current student's cell gets `ScoreForDb` and no other table changes; the current cached row becomes `UpdatedRow`, whose shown final is in [0, 100] |
| Grading.GradingPage.RefreshProgress | src/ui/grading.rs:92-110 | the counters become the database's total and completed counts, completed ≤ total |
| Grading.GradingPage.MoveStudent | src/ui/grading.rs:196-230 | a no-op on an empty list; otherwise the index becomes clamp(old+delta, 0, len−1) and focus 0; the old student is marked once exactly when the index is valid, questions are non-empty, the input count matches and the student is done |
| Grading.GradingPage.MoveToNext | src/ui/grading.rs:395-398 | focus becomes min(i+1, number of questions): the next question, or one past the last |
| Grading.GradingPage.MoveToPrev | src/ui/grading.rs:399-402 | focus becomes i−1, staying at 0 |
| Grading.GradingPage.OnKeyDown | src/ui/grading.rs:257-271 | F opens the popup and L/J are `move_student` with delta +1/−1 (clamped index, focus 0, refreshed counters, the once-only completion mark, nothing on an empty list); F and unbound keys change no index, focus, counter, input or completion row; no key changes a score, student or question row |
| Store.ValidateQuestion | src/db.rs:434-445 | accepts exactly a non-blank name with weight ≥ 0; a blank name is reported first |
| Store.ValidateStudent | src/db.rs:447-455 | accepts exactly a non-blank id and name; a blank id is reported first |
| Store.FirstInvalidStudent | src/db.rs:187-188 | the first batch row failing validation, all earlier rows valid; None when all are valid |
| Store.FirstInvalidQuestion | src/db.rs:87-89 | the same for question batches |
| Store.StudentBatchError | src/db.rs:187-188 | a student batch is rejected exactly when some row is invalid |
| Store.QuestionBatchError | src/db.rs:87-89 | a question batch is rejected exactly when some row is invalid |
| Store.CompleteMatrix | src/db.rs:51-62 | every (student, question) pair gets a cell; existing cells keep their value; new cells are NULL and belong to existing pairs |
| Store.CompleteMatrixIdempotent | src/db.rs:51-62 | completing twice equals completing once |
| Store.CompleteMatrixKeys | src/db.rs:113-122 | the completed key set is the old keys plus the cross join |
| Store.StudentsAfterUpsertAt | src/db.rs:187-204 | after the batch an id carries the name of its last incoming row; an unmentioned id keeps its row and no new id appears |
| Store.UpsertQuestionAsWrittenLosesComment | src/db.rs:91-99 | as written, re-upserting an existing question stores its weight in `comment`, not the incoming comment |
| Store.UpsertQuestion | src/db.rs:91-106 | the corrected upsert stores the incoming record, comment included, and touches no other id |
| Store.QuestionsAfterUpsertAt | src/db.rs:87-111 | after the batch an id holds the record of its last incoming row; unmentioned ids are unchanged |
| Store.MarkOnce | src/db.rs:360-374 | the student has a session row holding the old timestamp if it had one, else `now`; no other row changes |
| Store.MarkOnceIdempotent | src/db.rs:360-374 | marking twice equals marking once, and the table grows by at most one row |
| Store.MatchingIds | src/db.rs:305-311 | the ids the WHERE clause selects are ids of the table |
| Store.StrLtIrreflexive | src/db.rs:312 | the BINARY collation order is irreflexive |
| Store.StrLtTransitive | src/db.rs:312 | the BINARY collation order is transitive |
| Store.StrLtTotal | src/db.rs:312 | the BINARY collation order is total on distinct strings |
| Store.MinId | src/db.rs:312 | returns the least id of a non-empty set |
| Store.Db.constructor | src/db.rs:26-45 | a migrated database: four empty tables, trivially complete |
| Store.Db.RebuildScoreMatrix | src/db.rs:51-62 | scores become `CompleteMatrix` of the old scores; other tables unchanged; the matrix is complete |
| Store.Db.UpsertStudents | src/db.rs:183-219 | an error exactly when some row is invalid, naming the first one, with no table changed; on success the count is the batch size, students are upserted and the matrix is completed |
| Store.Db.UpsertQuestions | src/db.rs:83-126 | the same all-or-nothing contract for questions, each row stored by the corrected `UpsertQuestion` |
| Store.Db.SetScore | src/db.rs:280-302 | only the cell keyed (student, question) changes, to the new score |
| Store.Db.MarkCompletedOnce | src/db.rs:360-374 | sessions become `MarkOnce`; no other table changes |
| Store.Db.CompletedStudents | src/db.rs:340-351 | exactly the students for whom no question has a missing or NULL cell |
| Store.Db.CountCompletedStudents | src/db.rs:339-358 | the number of students in `CompletedStudents`: never more than the number of students, and all of them when there is no question |
| Store.Db.CountTotalStudents | src/db.rs:331-337 | the number of student rows |
| Store.Db.SearchStudents | src/db.rs:304-329 | at most `limit` matching rows with their stored names, in strictly ascending id order; a matching row is missing only when the limit is reached before its id |
| Store.SearchHeadIsLeast | src/db.rs:312 | the first row of a search result has the least matching id |
| Store.SearchResultUnique | src/db.rs:304-319 | the search result is determined by the table, the query and the limit |
| Store.SearchTail | src/db.rs:304-319 | dropping the first row gives the search over the table without it, with limit one less |
| Ratings.TallySum | src/ui/rating.rs:247-250 | the counters add up to the number of keys that fall in range |
| Ratings.CountKeys | src/ui/rating.rs:186-195 | the counting loop over a zeroed array gives `Tally` |
| Ratings.FirstMatch | src/ui/rating.rs:189-191 | the first rating in list order whose threshold the score reaches, none earlier; None when below every threshold |
| Ratings.FirstMatchMonotone | src/ui/rating.rs:189-191 | over ratings sorted descending, a higher score never lands in a later bucket |
| Ratings.RatingCountsSum | src/ui/rating.rs:186-195 | bucket counts plus unrated scores equal the number of scores |
| Ratings.ComputeRatingStats | src/ui/rating.rs:181-206 | one line per rating in order, with its label, its first-match count, and ratio count / max(#scores, 1) |
| Ratings.BinOf | src/ui/rating.rs:248 | the bin is at most 100/width, holds the score in its [b·w, (b+1)·w) interval, and the top bin absorbs larger scores |
| Ratings.BinKeys | src/ui/rating.rs:247-249 | one bin per score, each within 0..100/width |
| Ratings.Histogram | src/ui/rating.rs:244-252 | 100/width + 1 fresh counters holding the tally of the bins |
| Ratings.HistogramSum | src/ui/rating.rs:244-252 | the bin counts sum to the number of scores |
| Ratings.LastScore | src/ui/rating.rs:212-215 | the score map has no entry exactly when no score entry has the key |
| Ratings.LastScoreIsLastEntry | src/ui/rating.rs:212-215 | collecting into the map keeps the last entry for a key |
| Ratings.LastScoreIsSomeEntry | src/ui/rating.rs:212-215 | a value found in the map is the score of some entry for that key |
| Ratings.Rate | src/ui/rating.rs:226-233 | defined exactly for a present score with positive full score, and then rate·full = score |
| Ratings.RateSum | src/ui/rating.rs:218-236 | defined exactly when every question so far is rated |
| Ratings.CastU32 | src/ui/rating.rs:238 | Rust's saturating float-to-`u32` cast: 0 below, floor inside, `u32::MAX` above |
| Ratings.FinalPercent | src/ui/rating.rs:208-242 | defined exactly when the total of all weights is positive and every question is rated |
| Ratings.CalcFinalPercent | src/ui/rating.rs:208-242 | the loop with its early returns gives `FinalPercent` |
| Ratings.RateSumBounds | src/ui/rating.rs:218-236 | with non-negative weights and scores ≤ full, the rate sum lies in [0, total weight] |
| Ratings.RateInUnit | src/ui/rating.rs:228 | a rate whose score does not exceed its full score lies in [0, 1] |
| Ratings.FinalPercentAtMost100 | src/ui/rating.rs:237-241 | under the same conditions a defined percentage is at most 100 |
| Ratings.Present | src/ui/rating.rs:16-18 | `filter_map` keeps at most all values, and all of them when all are present |
| Ratings.PresentAppend | src/ui/rating.rs:16-18 | filtering a concatenation is the concatenation of the filtered parts |
| Ratings.PresentKeepsEach | src/ui/rating.rs:16-18 | every present value is kept, after the values present before it and before those present after it |
| Ratings.PresentCount | src/ui/rating.rs:16-18 | the filter keeps exactly as many values as there are present positions |
| Ratings.PresentFromSome | src/ui/rating.rs:16-18 | every kept value is a present value of the input |
| Ratings.FinalScores | src/ui/rating.rs:14-19 | at most one final per student, one per student when all are defined |
| Ratings.FinalScoresAreFinals | src/ui/rating.rs:14-19 | every listed final is some student's defined final percentage |
| Ratings.FinalScoresCount | src/ui/rating.rs:14-19 | there are exactly as many final scores as students with a defined final, so the `scores.len()` that the rating ratios divide by counts only those students |
| Ratings.FinalScoresListEach | src/ui/rating.rs:14-19 | every defined final is listed, in student order |
| Ratings.InsertDesc | src/ui/rating.rs:79 | insertion adds exactly the element (as a multiset) |
| Ratings.InsertDescSorted | src/ui/rating.rs:79 | insertion into a descending list keeps it descending |
| Ratings.SortDesc | src/ui/rating.rs:79 | the sort is a permutation and sorted by descending threshold |
| Ratings.SortDescOfSorted | src/ui/rating.rs:79 | sorting a sorted list changes nothing |
| Ratings.OnLabelInput | src/ui/rating.rs:62-66 | only that rating's label changes; descending order is preserved |
| Ratings.OnMinScoreInput | src/ui/rating.rs:75-82 | an unparsable value changes nothing; otherwise the threshold becomes min(v, 100) and the list is the descending sort, a permutation of the edited list; thresholds that were all at most 100 stay so |
| Ratings.OnAddRating | src/ui/rating.rs:93-100 | appends {"New", 0}; descending order is preserved |
| MasterStudents.IdPrefix | src/ui/master_students.rs:58 | `take_while(!digit)`: a digit-free prefix of the id, followed by a digit when shorter |
| MasterStudents.IdSplits | src/ui/master_students.rs:58-59 | prefix plus number part is the id, and the number part starts with a digit |
| MasterStudents.IdPartsOf | src/ui/master_students.rs:58-59 | a digit-free prefix followed by a digit-led part splits back into exactly those parts |
| MasterStudents.NextStudentId | src/ui/master_students.rs:55-71 | "S1" for an empty list; otherwise an id with the last id's prefix |
| MasterStudents.NextIdIncrements | src/ui/master_students.rs:58-61 | after prefix+n (n < `u32::MAX`), the next id is prefix+(n+1) |
| MasterStudents.NextIdRepeatsOnlyAtMax | src/ui/master_students.rs:60 | the next id repeats the last exactly when its number part is `u32::MAX` written without leading zeros |
| MasterStudents.AddRow | src/ui/master_students.rs:54-73 | appends exactly one student {NextStudentId, ""}; nothing else changes |
| MasterStudents.ClearStudents | src/ui/master_students.rs:78-80 | students become empty; nothing else changes |
| MasterStudents.EditId | src/ui/master_students.rs:139-142 | only that student's id changes |
| MasterStudents.EditName | src/ui/master_students.rs:149-152 | only that student's name changes |
| MasterStudents.DeleteRow | src/ui/master_students.rs:158-163 | removes the row at idx when idx < len, otherwise nothing changes |
| MasterStudents.ImportStudents | src/ui/master_students.rs:31-45 | only a read, non-blank, parsed file replaces the students, and only them; otherwise nothing changes |
| MasterQuestions.MaxQuestionId | src/ui/master_questions.rs:66 | the maximum id, attained by some question, or 0 for an empty list |
| MasterQuestions.NextQuestionId | src/ui/master_questions.rs:66 | 1 for an empty list |
| MasterQuestions.NextQuestionIdFresh | src/ui/master_questions.rs:66 | below `u32::MAX` the new id exceeds every existing id |
| MasterQuestions.NextQuestionIdSaturates | src/ui/master_questions.rs:66 | at `u32::MAX` the new id repeats an existing one |
| MasterQuestions.NumberInput | src/ui/master_questions.rs:145 | an unparsable field gives 0, and a digit string up to `u32::MAX` gives its value |
| MasterQuestions.NumberInputOfNatToString | src/ui/master_questions.rs:145 | typing a number's decimal form sets that number |
| MasterQuestions.AddQuestion | src/ui/master_questions.rs:63-77 | appends {NextQuestionId, "", 0, 1.0, ""}; nothing else changes |
| MasterQuestions.ClearQuestions | src/ui/master_questions.rs:82-84 | questions become empty; nothing else changes |
| MasterQuestions.EditQuestionId | src/ui/master_questions.rs:144-147 | only that question's id changes, to the parsed value or 0 |
| MasterQuestions.EditQuestionName | src/ui/master_questions.rs:154-157 | only that question's name changes |
| MasterQuestions.EditFullScore | src/ui/master_questions.rs:165-168 | only that question's full score changes, to the parsed value or 0 |
| MasterQuestions.EditWeight | src/ui/master_questions.rs:177-180 | only that question's weight changes, to the parsed value or 0 |
| MasterQuestions.EditComment | src/ui/master_questions.rs:187-190 | only that question's comment changes |
| MasterQuestions.DeleteQuestion | src/ui/master_questions.rs:196-201 | removes the row at idx when idx < len, otherwise nothing changes |
| MasterQuestions.ImportQuestions | src/ui/master_questions.rs:35-54 | only a read, non-blank, parsed file replaces the questions, and only them; otherwise nothing changes |
| MatrixTable.FindScore | src/ui/matrix_table.rs:28-30 | `find` yields an entry with the key, and None exactly when there is none |
| MatrixTable.FindScoreIsFirstEntry | src/ui/matrix_table.rs:28-30 | `find` yields the first entry with the key |
| MatrixTable.FirstAndLastEntryAgree | src/ui/matrix_table.rs:28-30 | when all entries for a key carry the same score, the table's `find` and the rating page's map lookup agree |
| MatrixTable.Cells | src/ui/matrix_table.rs:22-45 | one cell per question |
| MatrixTable.CellsMeaning | src/ui/matrix_table.rs:32-43 | a cell is "" exactly when the first entry is missing or NULL, else the decimal score |
| MatrixTable.RowOf | src/ui/matrix_table.rs:53-58 | the row carries the student's id and name and one cell per question |
| MatrixTable.FinalShownIffNoEmptyCell | src/ui/matrix_table.rs:47-51 | the final is shown exactly when the weighted full sum is positive and no cell is empty |
| MatrixTable.WeightedSumBounds | src/ui/matrix_table.rs:35-44 | with non-negative weights and scores ≤ full, 0 ≤ weighted sum ≤ weighted full |
| MatrixTable.TermWithinFull | src/ui/matrix_table.rs:35-44 | one question's term lies between 0 and full·weight |
| MatrixTable.FinalDisplayAtMost100 | src/ui/matrix_table.rs:47-48 | under the same conditions a shown final lies in [0, 100] |
| MatrixTable.ScoreCell | src/ui/matrix_table.rs:28-43 | one question's lookup: presence, the cell text, and score·weight when present |
| MatrixTable.ScanQuestions | src/ui/matrix_table.rs:21-45 | the inner loop yields the cells, the `filled` flag and both weighted sums over all questions |
| MatrixTable.BuildRow | src/ui/matrix_table.rs:20-58 | the loop body builds `RowOf(cfg, student)` |
| MatrixTable.BuildTableRows | src/ui/matrix_table.rs:14-61 | one row per student, in student order, each `RowOf` that student |
| SaveBar.Lines | src/ui/savebar.rs:160 | `str::lines` yields lines without '\n' |
| SaveBar.LinesOfTerminated | src/ui/savebar.rs:160 | `lines` of newline-terminated lines (no trailing '\r') gives those lines back |
| SaveBar.LineAt | src/ui/savebar.rs:160 | `lines().nth(n).unwrap_or("")` has no newline and is "" past the end |
| SaveBar.Hint | src/ui/savebar.rs:164-168 | the hint is non-empty exactly for data errors |
| SaveBar.Caret | src/ui/savebar.rs:161-162 | max(col−1, 0) spaces followed by '^' |
| SaveBar.FormatWithPosition | src/ui/savebar.rs:170-177 | with line > 0 the message's lines are the header with kind, line, column and error, the source line `line−1`, the caret line, then the hint |
| SaveBar.ExcerptIsLineAt | src/ui/savebar.rs:160-177 | the second line of the message is `LineAt(src, line−1)` |
| SaveBar.ExcerptIsReportedLine | src/ui/savebar.rs:160-177 | for a source made of lines, the second line of the message is the reported line itself |
| SaveBar.FormatWithoutPosition | src/ui/savebar.rs:178 | with line 0 the message is "kind: error" then the hint: no excerpt, no caret |
| SaveBar.Bar.constructor | src/ui/savebar.rs:13 | the message line starts empty |
| SaveBar.Bar.OnSave | src/ui/savebar.rs:18-36 | without a save path only the message is set and nothing is written; otherwise the path is written and the message reports the outcome; the configuration never changes |
| SaveBar.Bar.OnSaveAs | src/ui/savebar.rs:41-71 | cancel changes nothing; a successful write remembers the path; a failed write leaves the configuration unchanged |
| SaveBar.Bar.OnLoad | src/ui/savebar.rs:76-118 | cancel changes nothing; bad UTF-8, a blank file or a parse error sets the matching message (the parse error through `FormatJsonError`) and leaves the configuration; success replaces it and remembers the path |
| Search.Position | src/ui/search.rs:68 | `position`: the first index holding the id, None exactly when no student has it |
| Search.NoMatchShown | src/ui/search.rs:80-82 | the notice shows exactly when the query is non-blank and there are no results |
| Search.Window.constructor | src/ui/search.rs:17-18 | empty query and results, open window |
| Search.Window.OnInput | src/ui/search.rs:21-58 | a blank query clears the results without a query; an error sets the message and keeps the results; otherwise the results are the search with limit 30 |
| Search.Window.OnResultClick | src/ui/search.rs:65-73 | the current student becomes the first with that id, unchanged if none; the popup closes and focus returns to 0 |
| Search.Window.Close | src/ui/search.rs:87-90 | the popup closes and nothing else changes |
| CommentPanel.QuestionIndex | src/ui/comment_panel.rs:14 | the first index with that question id, None exactly when none has it |
| CommentPanel.FocusedQuestion | src/ui/comment_panel.rs:11-15 | defined exactly when an id is focused and some question has it, and then the first such question |
| CommentPanel.CommentText | src/ui/comment_panel.rs:18-20 | the focused question's comment, or "" |
| CommentPanel.SetComment | src/ui/comment_panel.rs:33-36 | only the first question with the id gets the new comment, with its other fields kept; no match changes nothing |
| CommentPanel.SetCommentKeepsIndex | src/ui/comment_panel.rs:34 | setting a comment keeps the same question focused |
| CommentPanel.CommentRoundTrip | src/ui/comment_panel.rs:11-37 | after typing, the panel shows the typed text |
| CommentPanel.OnInput | src/ui/comment_panel.rs:23-38 | no focus changes nothing; otherwise only the questions change, by `SetComment` |

## Left out

- Rendering (`rsx!`, CSS, the JavaScript focus call) and Dioxus signals as a mechanism are left out: handlers are modelled as plain state transitions.
- `use_effect`, `spawn` and `async` ordering are left out: each handler runs to completion, so a database write and the following reads see each other in program order.
- File dialogs, file reads, UTF-8 decoding, `serde_json` parsing, `parse::<f32>` and file writes are parameters, passed as opaque outcome values. Examples: `picked`, `text`, `parsed`, `write`, `read`, `failure`.
- `save_to_filepath` (src/models.rs): directory creation and serialisation are left out; only its success or failure reaches the model.
- `f32`/`f64` arithmetic is idealised as exact `real` arithmetic: rounding, NaN and infinities are not modelled.
- Display formatting is left out: `{:.4}` and `{:.0}` of finals, and the `ratio * 100` percent text. Finals are kept as numbers.
- SaveBar.Kind: serde_json gives each error exactly one category, so the source's priority order among the `is_*` tests is not observable. The model maps each category to its text.
- SaveBar.FormatWithPosition / SaveBar.FormatWithoutPosition: state the hint's lines as `SplitNewlines(Hint(..))` rather than as one line.
- `{e}` and `{e:#}` renderings of errors are opaque strings.
- Store.Db.SearchStudents and Search.Window.OnInput: require a query without `%`, `_` or `\`, because SQLite's wildcard semantics for user-typed wildcards are not modelled.
- Store.Db.SearchStudents: the ASCII-only case folding of SQLite `LIKE` is modelled, but not Unicode.
- Store.UpsertQuestionAsWritten: stores the weight as a real in `comment`. SQLite column affinity would convert it to text, but the schema lives in migrations that are not part of this model.
- Store.Db: the connection pool, `PRAGMA foreign_keys`, migrations, `updated_at` and the `finished_at` clock (a `now` parameter) are left out.
- Store.Db: SQL failures other than validation are left out; an error only arises from validation, which still drops the transaction.
- Store.Db.CountCompletedStudents and Store.Db.CountTotalStudents: do not model the query's error path or the `u32` conversion of the count.
- The other database operations are outside the modelled core. These are:
  - `list_questions`, `list_students` and `get_scores_for_student`;
  - `insert_*`, `update_*` and `delete_*`, including any cascade defined in the migrations;
  - `list_completion_times_latest` and `fetch_table_join_all`.
- `validate_question`'s `full_score < 0` test can never fire on a `u32`, so Store.ValidateQuestion omits it.
- Grading.ScoreForDb: the source hands an `Option<i64>` to `set_score`, which takes `Option<u32>`. The value is in 0..full whenever present, so the model stores it as `u32`.
- Grading.GradingPage.MoveStudent: does not model the `i32` wrap-around of `old_idx as i32 + delta`. Indices are small and `delta` is ±1.
- Grading.GradingPage: the asynchronous load of the question and student lists (src/ui/grading.rs:61-83) is not modelled; the constructor takes the loaded lists as parameters. The reload of a student's scores after navigation (src/ui/grading.rs:133-184) and the error messages of the progress queries are not modelled either.
- Ratings.SortDesc: proved sorted and a permutation of the input; the stability of `sort_by` is not stated.
- Ratings.Histogram: the bar-height computation of the card (src/ui/rating.rs:148-159) is rendering and is left out.
- Ratings.CountKeys: the source has two counting loops, one in `compute_rating_stats` and one in `histogram`; the model shares one loop over precomputed bucket keys.
- MatrixTable.BuildRow: the inner question loop is the separate method `MatrixTable.ScanQuestions`.
- Models.Config carries `ratings` and `savePath`, which the rating and save screens use but `src/models.rs` does not declare.

## Findings

| source | as written | input that shows it | evidently intended | confidence | as-written member | corrected member |
|---|---|---|---|---|---|---|
| src/db.rs:99 | on a conflicting id, `upsert_questions` sets `comment = excluded.weight` | upsert question id 1 with comment "check units" and weight 1.0 when id 1 already exists: the stored comment becomes the weight and "check units" is lost | `comment = excluded.comment`, as for a newly inserted id | high; not executed | Store.UpsertQuestionAsWritten (with Store.UpsertQuestionAsWrittenLosesComment) | Store.UpsertQuestion (used by Store.Db.UpsertQuestions) |
