# Training Assistant: quiz, grading and chat state

A Dafny model of the core of the iRIS Training Assistant, a single-page
Streamlit application. A trainee picks a training module. A language model
generates ten questions from the module's PDF, and the trainee answers them
one at a time. Seven correct answers pass. A failed quiz is replaced by a
fresh one. The result is appended to a progress log once per quiz session.
A chat box at the bottom sends questions, and a one-time summary request,
to the model.

The model covers three parts:

- **Grading** (`grading.dfy`, on top of `text.dfy`). `evaluate_answer`
  compares both sides after Python's `strip()` (the 29 `str.isspace`
  characters) and `lower()`.
- **Question generation** (`generator.dfy`, data in `quiz_items.dfy`). The
  model's reply goes through fixed rewrites before `json.loads`:
  - strip;
  - remove a leading code fence, optionally tagged `json` in any case;
  - remove a trailing fence;
  - replace curly quotes;
  - drop commas before a closing bracket or brace.

  When the reply does not parse, the result is an empty list. Each regular
  expression is modelled as Python's `re` runs it. `^`/`$` do not use
  MULTILINE, so `$` also matches before a final newline. IGNORECASE lets the
  long s U+017F match `s`. `re.sub` scans once, left to right.
- **The session** (`session.dfy`, `walkthrough.dfy`). The quiz, progress
  and chat fields of `st.session_state` form one immutable `State`. Every button becomes a pure
  handler, which is a no-op whenever the page would not draw that button.
  `Walkthrough.Step` turns one user action into handler calls, including
  the render-time completion, save and retry. `Walkthrough.Run` folds a
  sequence of actions. `Session.Valid` is the invariant every reachable
  session keeps: one score per answer, each answer an option of its
  question and scored against it, the feedback flags in step, the pass
  verdict of a complete quiz, and a transcript in which every reply answers
  the user turn before it. The transcript alternates strictly only while
  every model call returns (`Walkthrough.RunKeepsAlternation`). A call that
  raises leaves a lone user turn (`Walkthrough.FailedCallLeavesLonePrompt`).

The guard on the Next button compares `current_q` with the constant
`QUESTIONS_PER_SESSION - 1`. The guard that shows a question compares it
with the length of the generated list. The model keeps both as written.
With fewer than ten generated questions, the quiz therefore never
completes: after the last question no question is shown, and no action
changes the quiz again (`Walkthrough.ShortQuizStalls` and
`Walkthrough.StalledForever`). The quiz completes when `current_q` reaches
the constant, not the number of generated items.

Two more behaviours of the code:

- The chat call to the model is not wrapped in any error handling. The user
  turn and the summary flag are written before the call, so a failed call
  leaves both behind.
- A retried quiz keeps the `progress_saved` flag. So only the first attempt
  whose save succeeds is logged until Continue is pressed.

## Model

| member | source | states |
|---|---|---|
| Text.SkipSpace | Training-Assistant.py:69 | the scan stops at the first non-whitespace character at or after `i`, and everything it passed is whitespace |
| Text.SkipSpaceBack | Training-Assistant.py:69 | the backward scan stops after the last non-whitespace character above the lower bound, and everything it passed is whitespace |
| Text.Strip | Training-Assistant.py:69-71 | `strip()` is no longer than its input and is empty or has non-whitespace at both ends |
| Text.StripUnique | Training-Assistant.py:69-71 | whitespace + a core with non-whitespace ends + whitespace strips to exactly that core |
| Text.StripSplit | Training-Assistant.py:69-71 | every string is its `strip()` with whitespace before and after, so `strip()` removes whitespace only |
| Text.StripIgnoresSurroundingSpace | Training-Assistant.py:69-71 | added whitespace on either side does not change `strip()` |
| Text.StripIdempotent | Training-Assistant.py:69-71 | stripping twice, as lines 69-71 do, is stripping once |
| Text.StripOfSolid | Training-Assistant.py:69-71 | a string with non-whitespace ends is its own `strip()` |
| Text.Lower | Training-Assistant.py:82 | `lower()` keeps the length and maps each character on its own |
| Grading.EvaluateAnswer | Training-Assistant.py:81-82 | answers whose stripped forms are equal match, and matching answers have stripped forms of the same length; `Grading.EvaluateAnswerCharwise` gives the full characterisation |
| Grading.EvaluateAnswerCharwise | Training-Assistant.py:81-82 | two answers match exactly when their stripped forms have the same length and agree at every position up to ASCII letter case, in both directions |
| Grading.LowerEqualCharwise | Training-Assistant.py:82 | lower-cased strings are equal exactly when the originals agree position by position up to letter case |
| Grading.SameIgnoringCaseLower | Training-Assistant.py:82 | two characters lower-case to the same one exactly when they differ at most in ASCII case |
| Grading.EvaluateAnswerReflexive | Training-Assistant.py:81-82 | every answer matches itself |
| Grading.EvaluateAnswerSymmetric | Training-Assistant.py:81-82 | the comparison does not depend on argument order |
| Grading.EvaluateAnswerTransitive | Training-Assistant.py:81-82 | matching chains: a match of a with b and of b with c is a match of a with c |
| Grading.EvaluateAnswerIgnoresSpace | Training-Assistant.py:81-82 | whitespace around the chosen option does not change the verdict |
| Grading.StripLower | Training-Assistant.py:82 | lower-casing and stripping commute |
| Grading.LowerIdempotent | Training-Assistant.py:82 | lower-casing twice is lower-casing once |
| Grading.EvaluateAnswerIgnoresCase | Training-Assistant.py:81-82 | lower-casing the chosen option first does not change the verdict |
| Grading.EvaluateAnswerPadded | Training-Assistant.py:81-82 | `" True "` matches `"true"` |
| Grading.EvaluateAnswerCased | Training-Assistant.py:81-82 | `"C. Paris"` matches `"c. paris"` |
| Grading.EvaluateAnswerDistinct | Training-Assistant.py:81-82 | `"B. Madrid"` does not match `"C. Paris"` |
| Generator.StripLeadingFence | Training-Assistant.py:70 | the result is a suffix of the input, and differs from it exactly when the input opens with a fence |
| Generator.LeadingFenceTagged | Training-Assistant.py:70 | a fence followed by `json` in any case (the long s included) loses both |
| Generator.LeadingFenceBare | Training-Assistant.py:70 | a fence not followed by a tag loses only the fence |
| Generator.StripTrailingFence | Training-Assistant.py:71 | a fence at the very end is removed; failing that, one just before a final newline is removed and the result ends in that newline; otherwise nothing changes |
| Generator.TrailingFenceRoundTrip | Training-Assistant.py:71 | appending a fence and removing it gives the original back |
| Generator.Replace | Training-Assistant.py:72 | one-character `str.replace` keeps the length and changes exactly the matching positions |
| Generator.NormalizeQuotes | Training-Assistant.py:72 | curly double quotes become `"`, curly single quotes become `'`, every other character stays in place, and no curly quote is left |
| Generator.NormalizeQuotesIdempotent | Training-Assistant.py:72 | a second quote pass changes nothing |
| Generator.NormalizeQuotesNoop | Training-Assistant.py:72 | text without curly quotes passes unchanged |
| Generator.CommaMatchMeaning | Training-Assistant.py:73 | the match test at a position agrees with the pattern's own reading: a comma, any whitespace run, then `]` or `}` |
| Generator.DropTrailingCommasFrom | Training-Assistant.py:73 | the left-to-right substitution never lengthens the text |
| Generator.DropTrailingCommas | Training-Assistant.py:73 | every character of the result comes from the input |
| Generator.KeptCharsOccur | Training-Assistant.py:73 | every character the scan emits occurs in the input |
| Generator.KeepFromNonCommas | Training-Assistant.py:73 | the filter keeps a comma-free stretch of the input whole |
| Generator.DropTrailingCommasIsFilter | Training-Assistant.py:73 | the scan, which resumes after each match, equals dropping every comma at which a match starts in the original text |
| Generator.KeepFromPositions | Training-Assistant.py:73 | the filter keeps exactly the positions where no match starts, in increasing order |
| Generator.DropTrailingCommasPositions | Training-Assistant.py:73 | line 73 deletes exactly the commas followed by whitespace and a closer, and keeps every other character in its original order |
| Generator.KeepFromNoop | Training-Assistant.py:73 | the filter leaves text without a match start unchanged |
| Generator.DropTrailingCommasNoop | Training-Assistant.py:73 | text with no dangling comma passes unchanged |
| Generator.DropTrailingCommasNotIdempotent | Training-Assistant.py:73 | one pass turns `",,]"` into `",]"`, which a second pass would change again |
| Generator.FirstPassOnDoubleComma | Training-Assistant.py:73 | `",,]"` becomes `",]"` |
| Generator.SecondPassOnDoubleComma | Training-Assistant.py:73 | `",]"` becomes `"]"` |
| Generator.Sanitize | Training-Assistant.py:69-73 | the text handed to `json.loads` contains no curly quote |
| Generator.NoDanglingCommaThenSpace | Training-Assistant.py:73 | trailing whitespace cannot create a dangling comma |
| Generator.NoCurlyQuotesThenSpace | Training-Assistant.py:72 | trailing whitespace adds no curly quote |
| Generator.SanitizeKeepsCleanReply | Training-Assistant.py:69-73 | a reply without surrounding whitespace, fences, curly quotes or dangling commas reaches `json.loads` unchanged |
| Generator.FencesComeOff | Training-Assistant.py:69-71 | a fenced payload, tagged or padded, comes out of lines 69-71 without the fences and the leading padding |
| Generator.SanitizeUnwrapsFence | Training-Assistant.py:69-73 | a clean payload inside a code fence, tagged `json` or padded, reaches `json.loads` with the fences and leading padding gone |
| Generator.ParseQuestions | Training-Assistant.py:74-79 | a reply that does not parse yields no questions; one that parses yields the parsed list |
| Session.Sum | Training-Assistant.py:296-303 | Python's `sum` over the scores is zero exactly when every score is, and a list of 0/1 scores sums to at most its length |
| Session.ScoreOf | Training-Assistant.py:276-277 | the score of an answer is 0 or 1, and 1 exactly when `evaluate_answer` accepts it |
| Session.Initial | Training-Assistant.py:164-177 | a new session has every quiz field at its default, an empty transcript and no pending prompt, and is valid |
| Session.SameQuizKeepsValid | Training-Assistant.py:164-174 | validity of the quiz record depends only on the quiz fields |
| Session.SameChatKeepsValid | Training-Assistant.py:368-372 | validity of the chat part depends only on the transcript, the queued prompt and the summary flag |
| Session.StartQuiz | Training-Assistant.py:217-236 | without questions, a non-empty generated list starts a quiz on it at question 0; an empty one only clears the loading flag; with questions the button is absent |
| Session.StartQuizKeepsValid | Training-Assistant.py:217-236 | starting a quiz keeps the session valid |
| Session.SelectOption | Training-Assistant.py:270-280 | an offered option is appended to the answers, its 0/1 score to the scores, and the verdict is shown; nothing else moves; otherwise nothing changes |
| Session.SelectOptionKeepsValid | Training-Assistant.py:270-280 | answering keeps one score per answer, each scored against its own question |
| Session.SelectOptionRecords | Training-Assistant.py:275-279 | the new answer and its score land at the current question's index |
| Session.Advance | Training-Assistant.py:282-298 | below question 9 the quiz moves on and hides the feedback; from question 9 on it completes, passed exactly when the total reaches 7; without visible feedback nothing changes |
| Session.NextQuestionKeepsValid | Training-Assistant.py:289-294 | moving to the next question keeps the session valid |
| Session.CompleteKeepsValid | Training-Assistant.py:295-298 | completing records the pass verdict of the score total |
| Session.CompletedQuizValid | Training-Assistant.py:295-298 | marking the quiz on question 9 complete, passed exactly when the total reaches 7, keeps the quiz record valid |
| Session.AdvanceKeepsValid | Training-Assistant.py:282-298 | the Next and completion step keeps the session valid |
| Session.RecordProgress | Training-Assistant.py:305-311 | a complete, unsaved quiz whose save succeeds appends one entry (module, user, score total, session id) and sets the flag; in every other case the log stays as it was; only the flag can change |
| Session.RecordProgressKeepsValid | Training-Assistant.py:305-311 | saving keeps the session valid |
| Session.Retry | Training-Assistant.py:321-332 | a complete, failed quiz restarts on the regenerated list at question 0 with the progress flag untouched; otherwise nothing changes |
| Session.RetryKeepsValid | Training-Assistant.py:321-332 | a retry keeps the session valid |
| Session.IndexOf | Training-Assistant.py:353 | `list.index` returns the first position holding the module, and nothing exactly when it is absent |
| Session.Continue | Training-Assistant.py:332-365 | in the completion view, which only a passed quiz reaches, Continue moves to the module after the first occurrence of the current one, or stays on the last or an unlisted one; it resets the quiz and clears the progress flag and does not touch the chat |
| Session.ContinueKeepsValid | Training-Assistant.py:351-365 | Continue keeps the session valid |
| Session.RequestSummary | Training-Assistant.py:374-377 | until a summary was sent, the button queues the fixed summary prompt |
| Session.RequestSummaryKeepsValid | Training-Assistant.py:374-377 | queuing the summary keeps the session valid |
| Session.AlternatesFollowPrompts | Training-Assistant.py:425-449 | a strictly alternating transcript opens with a user turn and has every reply answering a prompt |
| Session.Exchange | Training-Assistant.py:425-449 | a sent prompt adds the user turn and, when the model replies, the stripped reply after it; a raising call adds only the user turn |
| Session.ExchangeShape | Training-Assistant.py:425-449 | a reply keeps an alternating transcript alternating, a raising call breaks the alternation, and every reply still answers a prompt |
| Session.SendChat | Training-Assistant.py:413-449 | a queued prompt goes first and marks the summary as sent, reply or not; otherwise a non-empty typed prompt goes when Send was pressed; the quiz, module and progress flag are untouched |
| Session.SendChatKeepsAlternation | Training-Assistant.py:413-449 | when the model replies, a chat send keeps the transcript alternating |
| Session.SendChatKeepsValid | Training-Assistant.py:413-449 | chatting keeps the session valid, including after a raising call |
| Walkthrough.Settle | Training-Assistant.py:294-332 | a quiz complete after the render and not yet saved gets exactly the entry (module, user, score total, session id) when the save succeeds; in every other case the log is unchanged; the flag ends set exactly when it was set or an entry was written; a render that completes no quiz changes nothing |
| Walkthrough.CompletedByRender | Training-Assistant.py:294-298 | on a quiz that is complete after the render, the completion step leaves it complete, passed exactly when the total reaches 7, with its answers, scores, flag and module unchanged |
| Walkthrough.RenderSettles | Training-Assistant.py:294-332 | a render of a complete quiz below the pass mark restarts it on the regenerated list at question 0; one at or above the pass mark stays complete and passed with its answers and scores; either way the flag ends set exactly when it was set or the save succeeded |
| Walkthrough.Step | Training-Assistant.py:217-449 | any action leaves the log as a prefix of the new one with at most one entry more, written only when the flag was clear; only Continue clears the flag; the summary flag never goes back |
| Walkthrough.StepKeepsValid | Training-Assistant.py:217-449 | every action keeps the session valid |
| Walkthrough.RunKeepsValid | Training-Assistant.py:217-449 | any sequence of actions from a valid session ends valid, with one score per answer |
| Walkthrough.RecordsAtMostOncePerContinue | Training-Assistant.py:305-311 | the progress log is append-only and gains at most one entry per Continue, plus one if the flag was clear at the start: renders and retries never write twice |
| Walkthrough.AnswerOne | Training-Assistant.py:270-298 | one offered answer then Next records that answer; on question 9 it completes the quiz, below it waits on the next question |
| Walkthrough.PlayFrom | Training-Assistant.py:270-298 | answering in turn records exactly the chosen options in order; the quiz completes on the tenth answer and otherwise waits on the next position |
| Walkthrough.PlayFromStep | Training-Assistant.py:270-298 | the first answer followed by the rest is the whole play |
| Walkthrough.OfferedInTurnByIndex | Training-Assistant.py:273 | an option of each successive question, given by index, is an option offered in turn |
| Walkthrough.PlayKeepsValid | Training-Assistant.py:270-298 | answering any sequence of options keeps the session valid |
| Walkthrough.StartThenPlay | Training-Assistant.py:217-298 | starting on a generated list and answering in turn gives exactly those answers on that list |
| Walkthrough.PlayThrough | Training-Assistant.py:217-298 | with ten or more questions, ten offered answers complete the quiz with those answers, each scored against its own question, and pass exactly when the total reaches 7 |
| Walkthrough.StepOnStalled | Training-Assistant.py:262-301 | once the quiz waits past the end of its list, no action changes the quiz record, and only Continue could touch the flag |
| Walkthrough.StalledForever | Training-Assistant.py:262-301 | from a stalled quiz no sequence of actions changes the quiz record again |
| Walkthrough.ShortQuizStalls | Training-Assistant.py:262-298 | with 1 to 9 generated questions, answering them all leaves the quiz incomplete with no question shown |
| Walkthrough.PassMarkIsInclusive | Training-Assistant.py:296-298 | 7 correct out of 10 passes and 6 does not |
| Walkthrough.ContinueWalksModules | Training-Assistant.py:351-359 | with distinct module names, Continue moves to the next module in the list and stays on the last one |
| Walkthrough.SummarySentOnce | Training-Assistant.py:374-449 | the summary button sends the fixed prompt once and is hidden afterwards even if the call raises; it adds that exchange, or only the prompt when the call raises; it leaves the quiz alone and does nothing when pressed again |
| Walkthrough.StepKeepsAlternation | Training-Assistant.py:217-449 | an action whose model call, if any, returns keeps the transcript alternating |
| Walkthrough.RunKeepsAlternation | Training-Assistant.py:217-449 | while every model call returns, any run keeps the transcript alternating |
| Walkthrough.FailedCallLeavesLonePrompt | Training-Assistant.py:425-446 | a send whose model call raises leaves the typed prompt without a reply, so the transcript no longer alternates, and the session stays valid |

## Left out

- The calls to the language model (lines 65-68 and 442-445) are not modelled. The questions they generate and the chat reply become event parameters. The chat call may also fail to return, which the model covers with a `None` reply.
- A question-generation call that raises (line 65) is not modelled. At Start Quiz it would leave `questions_loading` set (line 219). During a retry it would leave the failed quiz complete, with its save done, until the next page run retries. The model's `StartQuizClicked` and `Rendered` events always carry a generated list.
- PDF text extraction (lines 26-29) is not modelled. The 5000-character truncation of the prompt is not modelled either.
- The video and image display, the banner, the styling and the missed-question review (lines 131-144, 191-216, 237-259, 312-320 and 333-349) are not modelled. They draw output or toggle the display-only `show_video` flag (lines 209-215, 239-240 and 257-259).
- A module directory without a PDF stops the page (lines 182-184 and 194-196). The model assumes every module has one.
- The name entry and `uuid4` session id (lines 116-128) are not modelled. The user name and session id are parameters.
- The module select box (lines 151-161) is left out. It changes the module without resetting the quiz fields, and that path is not modelled.
- `st.rerun()` and the order in which one page run draws widgets are not modelled. Each action is one `Walkthrough.Step`, and the completion, save and retry of a render form one `Rendered` event.
- `st.error`, `st.warning` and `st.info` messages are not modelled. They change no state.
- `Generator.ParseQuestions`: `json.loads` and the conversion of its objects into quiz items are a parameter. A reply that parses to something other than a list of well-formed items (missing keys, wrong types) would make the page fail later, and that path is not modelled.
- `Session.RecordProgress`: writing `progress.csv` (lines 84-95) is modelled as appending to a log. The timestamp column, the CSV header and file-system failures other than the "save failed" flag are left out.
- `Text.Lower`: only ASCII letters are lower-cased. Python's `lower()` also maps non-ASCII letters and can change a string's length (for example U+0130), so answers that differ only in non-ASCII letter case are graded as different here.
- `Grading.EvaluateAnswerCharwise`: stated with ASCII letter case, as a consequence of the `Text.Lower` restriction.
- `Session.SendChat`: a model call that raises (line 442) is a `None` reply. The user turn and the summary flag written before it stay, and the rest of that page run is not modelled. What the exception shows on screen is left out.
- `Session.Continue`: when the current module is missing from the list, the code shows a warning and still resets the quiz. The model does the same without the warning.
- The `questions_loading` flag is set and cleared within one page run when generation returns (lines 219-235). The model keeps only that final value, False.
