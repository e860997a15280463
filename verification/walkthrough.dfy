/**
 Whole interactions: the page's user actions as events, one step per
 action, and the properties of runs of several steps.
 */
module Walkthrough {
  import opened Wrappers
  import opened Text
  import opened QuizItems
  import opened Session

  /** One user action, with the opaque results it needs: the generated
      questions, the outcome of the progress save, the regenerated
      questions of a retry, the module list, the model's reply (`None`
      when the model call raises). */
  datatype Event =
    | StartQuizClicked(generated: seq<QuizItem>)
    | OptionClicked(option: string)
    | NextClicked
    | Rendered(saveOk: bool, regenerated: seq<QuizItem>)
    | ContinueClicked(modules: seq<string>)
    | SummaryClicked(summaryReply: Option<string>)
    | SendClicked(typed: string, reply: Option<string>)

  /** The quiz is complete once this render has run lines 294-298: it
      already was, or the feedback of the last counted question is on
      screen. */
  predicate CompleteAfterRender(s: State) {
    s.quizComplete || (QuizReady(s) && s.feedbackShown && s.currentQ >= QuestionsPerSession - 1)
  }

  /** The render-time part of a page run: on the last counted question the
      quiz completes (line 295), then the save-once guard runs, then a
      failed quiz is retried. A quiz complete after this render and not
      yet saved gets exactly one log entry when the save succeeds, and the
      log is untouched in every other case. */
  function Settle(s: State, log: seq<ProgressEntry>, user: string, sessionId: string,
                  saveOk: bool, regenerated: seq<QuizItem>): (r: (State, seq<ProgressEntry>))
    ensures |log| <= |r.1| <= |log| + 1 && r.1[..|log|] == log
    ensures CompleteAfterRender(s) && !s.progressSaved && saveOk ==>
      r.1 == log + [ProgressEntry(s.selectedModule, user, Sum(s.scores), sessionId)]
    ensures !(CompleteAfterRender(s) && !s.progressSaved && saveOk) ==> r.1 == log
    ensures r.0.progressSaved == (s.progressSaved || |r.1| > |log|)
    ensures !CompleteAfterRender(s) ==> r.0 == s
  {
    var s1 := if s.currentQ < QuestionsPerSession - 1 then s else Advance(s);
    var (s2, log2) := RecordProgress(s1, log, user, sessionId, saveOk);
    (Retry(s2, regenerated), log2)
  }

  /** What one render does to a quiz that is complete after it: a failed
      one (total below the pass mark) restarts on the regenerated list with
      the flag set exactly when it was set or the save succeeded; a passed
      one stays complete and passed with its answers, for Continue. The
      `Rendered` event of `Step` is this render. */
  lemma RenderSettles(s: State, log: seq<ProgressEntry>, user: string, sessionId: string,
                      saveOk: bool, regenerated: seq<QuizItem>)
    requires Valid(s) && CompleteAfterRender(s)
    ensures var r := Settle(s, log, user, sessionId, saveOk, regenerated).0;
      && (Sum(s.scores) < PassingScore ==>
            r.questions == regenerated && AtQuizStart(r) && r.progressSaved == (s.progressSaved || saveOk))
      && (Sum(s.scores) >= PassingScore ==>
            r.quizComplete && r.passedQuiz && r.answers == s.answers && r.scores == s.scores
            && r.progressSaved == (s.progressSaved || saveOk))
  {
    var s1 := CompletedByRender(s);
    assert s1 == if s.currentQ < QuestionsPerSession - 1 then s else Advance(s);
    var s2 := s1.(progressSaved := s.progressSaved || saveOk);
    assert RecordProgress(s1, log, user, sessionId, saveOk).0 == s2;
    assert Settle(s, log, user, sessionId, saveOk, regenerated).0 == Retry(s2, regenerated);
    if Sum(s.scores) < PassingScore {
      assert s2.quizComplete && !s2.passedQuiz;
    } else {
      assert Retry(s2, regenerated) == s2;
    }
  }

  /** The completion step of a render (lines 294-298) on a quiz that is
      complete after it: the quiz is complete, passed exactly when the
      total reaches the pass mark, and nothing else it carries moves. */
  function CompletedByRender(s: State): (r: State)
    requires Valid(s) && CompleteAfterRender(s)
    ensures r.quizComplete && r.passedQuiz == (Sum(s.scores) >= PassingScore)
    ensures r.answers == s.answers && r.scores == s.scores
    ensures r.progressSaved == s.progressSaved && r.selectedModule == s.selectedModule
  {
    if s.currentQ < QuestionsPerSession - 1 then s else Advance(s)
  }

  /** One action. Next is only drawn below the last counted question; the
      summary button queues its prompt, which the chat block sends in the
      same run. */
  function Step(s: State, log: seq<ProgressEntry>, user: string, sessionId: string, e: Event)
    : (r: (State, seq<ProgressEntry>))
    ensures |log| <= |r.1| <= |log| + 1 && r.1[..|log|] == log
    ensures |r.1| > |log| ==> !s.progressSaved && r.0.progressSaved
    ensures !e.ContinueClicked? && s.progressSaved ==> r.0.progressSaved
    ensures s.summaryGenerated ==> r.0.summaryGenerated
  {
    match e
    case StartQuizClicked(generated) => (StartQuiz(s, generated), log)
    case OptionClicked(option) => (SelectOption(s, option), log)
    case NextClicked => (if s.currentQ < QuestionsPerSession - 1 then Advance(s) else s, log)
    case Rendered(saveOk, regenerated) => Settle(s, log, user, sessionId, saveOk, regenerated)
    case ContinueClicked(modules) => (Continue(s, modules), log)
    case SummaryClicked(reply) => (SendChat(RequestSummary(s), "", false, reply), log)
    case SendClicked(typed, reply) => (SendChat(s, typed, true, reply), log)
  }

  lemma StepKeepsValid(s: State, log: seq<ProgressEntry>, user: string, sessionId: string, e: Event)
    requires Valid(s)
    ensures Valid(Step(s, log, user, sessionId, e).0)
  {
    match e
    case StartQuizClicked(generated) => StartQuizKeepsValid(s, generated);
    case OptionClicked(option) => SelectOptionKeepsValid(s, option);
    case NextClicked => AdvanceKeepsValid(s);
    case Rendered(saveOk, regenerated) =>
      var s1 := if s.currentQ < QuestionsPerSession - 1 then s else Advance(s);
      AdvanceKeepsValid(s);
      RecordProgressKeepsValid(s1, log, user, sessionId, saveOk);
      RetryKeepsValid(RecordProgress(s1, log, user, sessionId, saveOk).0, regenerated);
    case ContinueClicked(modules) => ContinueKeepsValid(s, modules);
    case SummaryClicked(reply) =>
      RequestSummaryKeepsValid(s);
      SendChatKeepsValid(RequestSummary(s), "", false, reply);
    case SendClicked(typed, reply) => SendChatKeepsValid(s, typed, true, reply);
  }

  function Run(s: State, log: seq<ProgressEntry>, user: string, sessionId: string, events: seq<Event>)
    : (State, seq<ProgressEntry>)
    decreases |events|
  {
    if |events| == 0 then (s, log)
    else
      var (s1, log1) := Step(s, log, user, sessionId, events[0]);
      Run(s1, log1, user, sessionId, events[1..])
  }

  function Continues(events: seq<Event>): nat {
    if |events| == 0 then 0
    else (if events[0].ContinueClicked? then 1 else 0) + Continues(events[1..])
  }

  /** Every run from a valid session ends in a valid one; in particular
      there is one score per answer after any sequence of actions. */
  lemma {:induction false} RunKeepsValid(s: State, log: seq<ProgressEntry>, user: string, sessionId: string, events: seq<Event>)
    requires Valid(s)
    ensures Valid(Run(s, log, user, sessionId, events).0)
    ensures |Run(s, log, user, sessionId, events).0.answers| == |Run(s, log, user, sessionId, events).0.scores|
    decreases |events|
  {
    if |events| > 0 {
      StepKeepsValid(s, log, user, sessionId, events[0]);
      var (s1, log1) := Step(s, log, user, sessionId, events[0]);
      RunKeepsValid(s1, log1, user, sessionId, events[1..]);
    }
  }

  /** The progress log is append-only, and a run adds at most one entry
      per Continue, plus one if the flag was clear at the start: retries
      and repeated renders never write twice. */
  lemma {:induction false} RecordsAtMostOncePerContinue(s: State, log: seq<ProgressEntry>, user: string, sessionId: string, events: seq<Event>)
    ensures var log' := Run(s, log, user, sessionId, events).1;
      && |log| <= |log'|
      && log'[..|log|] == log
      && |log'| <= |log| + (if s.progressSaved then 0 else 1) + Continues(events)
    decreases |events|
  {
    if |events| > 0 {
      var (s1, log1) := Step(s, log, user, sessionId, events[0]);
      RecordsAtMostOncePerContinue(s1, log1, user, sessionId, events[1..]);
      var log' := Run(s1, log1, user, sessionId, events[1..]).1;
      assert log'[..|log|] == log'[..|log1|][..|log|];
    }
  }

  // ---------------------------------------------------------------------
  // Playing a quiz through
  // ---------------------------------------------------------------------

  /** Answer the current question with each choice in turn, then press Next
      (or let the page complete the quiz on the last counted question). */
  function Play(s: State, choices: seq<string>): State
    decreases |choices|
  {
    if |choices| == 0 then s else Play(Advance(SelectOption(s, choices[0])), choices[1..])
  }

  /** From a question awaiting its answer, answering the following
      questions with offered options records exactly those options, in
      order. The quiz completes once `QuestionsPerSession` answers are in;
      before that it waits on the next question, which is past the end of
      the list when fewer questions were generated. */
  lemma {:induction false} PlayFrom(s: State, choices: seq<string>)
    requires !s.feedbackShown && !s.quizComplete && s.currentQ == |s.answers| < QuestionsPerSession
    requires |s.answers| + |choices| <= QuestionsPerSession
    requires OfferedInTurn(s.questions, |s.answers|, choices)
    ensures PlayedFrom(s, choices, Play(s, choices))
    decreases |choices|, 1
  {
    if |choices| == 0 {
      assert choices == [];
      ConcatEmpty(s.answers);
    } else {
      PlayFromStep(s, choices);
    }
  }

  /** What playing `choices` from `s` leads to. */
  predicate PlayedFrom(s: State, choices: seq<string>, r: State) {
    && r.questions == s.questions
    && r.answers == s.answers + choices
    && SameOutsideQuiz(s, r)
    && (|s.answers| + |choices| == QuestionsPerSession ==> r.quizComplete)
    && (|s.answers| + |choices| < QuestionsPerSession ==>
          !r.quizComplete && !r.feedbackShown && r.currentQ == |s.answers| + |choices|)
  }

  lemma {:induction false} PlayFromStep(s: State, choices: seq<string>)
    requires !s.feedbackShown && !s.quizComplete && s.currentQ == |s.answers| < QuestionsPerSession
    requires 0 < |choices| && |s.answers| + |choices| <= QuestionsPerSession
    requires OfferedInTurn(s.questions, |s.answers|, choices)
    ensures PlayedFrom(s, choices, Play(s, choices))
    decreases |choices|, 0
  {
    AnswerOne(s, choices[0]);
    var s2 := Advance(SelectOption(s, choices[0]));
    var rest := choices[1..];
    assert Play(s, choices) == Play(s2, rest);
    ConcatFirst(s.answers, choices);
    if |s.answers| < QuestionsPerSession - 1 {
      PlayFrom(s2, rest);
    } else {
      assert rest == [];
      assert Play(s2, rest) == s2;
    }
  }

  lemma ConcatEmpty<T>(a: seq<T>)
    ensures a + [] == a
  {
  }

  lemma EmptyConcat<T>(b: seq<T>)
    ensures [] + b == b
  {
  }

  lemma ConcatFirst<T>(a: seq<T>, b: seq<T>)
    requires |b| > 0
    ensures a + b == (a + [b[0]]) + b[1..]
  {
  }

  /** Each choice is an option of its question, counting from `n`. */
  predicate OfferedInTurn(qs: seq<QuizItem>, n: nat, choices: seq<string>)
    decreases |choices|
  {
    |choices| == 0 || (n < |qs| && choices[0] in qs[n].options && OfferedInTurn(qs, n + 1, choices[1..]))
  }

  lemma {:induction false} OfferedInTurnByIndex(qs: seq<QuizItem>, n: nat, choices: seq<string>)
    requires n + |choices| <= |qs|
    requires forall k :: 0 <= k < |choices| ==> choices[k] in qs[n + k].options
    ensures OfferedInTurn(qs, n, choices)
    decreases |choices|
  {
    if |choices| > 0 {
      var rest := choices[1..];
      forall k | 0 <= k < |rest|
        ensures rest[k] in qs[n + 1 + k].options
      {
        assert rest[k] == choices[k + 1];
      }
      OfferedInTurnByIndex(qs, n + 1, rest);
    }
  }

  /** One offered answer followed by Next (or completion on the last
      counted question). */
  lemma AnswerOne(s: State, c: string)
    requires !s.feedbackShown && !s.quizComplete && s.currentQ == |s.answers|
    requires |s.answers| < |s.questions| && c in s.questions[|s.answers|].options
    ensures var r := Advance(SelectOption(s, c));
      && r.questions == s.questions
      && r.answers == s.answers + [c]
      && SameOutsideQuiz(s, r)
      && (|s.answers| >= QuestionsPerSession - 1 ==> r.quizComplete)
      && (|s.answers| < QuestionsPerSession - 1 ==>
            !r.quizComplete && !r.feedbackShown && r.currentQ == |s.answers| + 1)
  {
    assert OptionOffered(s, c);
  }

  lemma {:induction false} PlayKeepsValid(s: State, choices: seq<string>)
    requires Valid(s)
    ensures Valid(Play(s, choices))
    decreases |choices|
  {
    if |choices| > 0 {
      SelectOptionKeepsValid(s, choices[0]);
      AdvanceKeepsValid(SelectOption(s, choices[0]));
      PlayKeepsValid(Advance(SelectOption(s, choices[0])), choices[1..]);
    }
  }

  /** With at least `QuestionsPerSession` questions, ten offered answers
      complete the quiz with exactly those answers, each scored against its
      own question, and the verdict is the pass mark on their total. */
  lemma PlayThrough(s0: State, generated: seq<QuizItem>, choices: seq<string>)
    requires Valid(s0) && s0.questions == []
    requires |generated| >= QuestionsPerSession && |choices| == QuestionsPerSession
    requires forall k :: 0 <= k < |choices| ==> choices[k] in generated[k].options
    ensures var r := Play(StartQuiz(s0, generated), choices);
      && r.quizComplete
      && r.answers == choices
      && |r.scores| == QuestionsPerSession
      && (forall k :: 0 <= k < QuestionsPerSession ==> r.scores[k] == ScoreOf(choices[k], generated[k].answer))
      && r.passedQuiz == (Sum(r.scores) >= PassingScore)
  {
    StartThenPlay(s0, generated, choices);
  }

  /** Starting a quiz on the generated list and answering in turn. */
  lemma StartThenPlay(s0: State, generated: seq<QuizItem>, choices: seq<string>)
    requires Valid(s0) && s0.questions == []
    requires 0 < |generated| && |choices| <= |generated| && |choices| <= QuestionsPerSession
    requires forall k :: 0 <= k < |choices| ==> choices[k] in generated[k].options
    ensures var r := Play(StartQuiz(s0, generated), choices);
      && Valid(r)
      && r.questions == generated
      && r.answers == choices
      && (|choices| == QuestionsPerSession ==> r.quizComplete)
      && (|choices| < QuestionsPerSession ==> !r.quizComplete && !r.feedbackShown && r.currentQ == |choices|)
  {
    var s := StartQuiz(s0, generated);
    StartQuizKeepsValid(s0, generated);
    OfferedInTurnByIndex(generated, 0, choices);
    PlayFrom(s, choices);
    PlayKeepsValid(s, choices);
    EmptyConcat(choices);
  }

  /** The quiz waits on a question past the end of its list and never
      changes again. */
  predicate Stalled(s: State) {
    s.questions != [] && !QuizReady(s) && !s.quizComplete && !s.feedbackShown
  }

  lemma StepOnStalled(s: State, log: seq<ProgressEntry>, user: string, sessionId: string, e: Event)
    requires Valid(s) && Stalled(s)
    ensures var r := Step(s, log, user, sessionId, e).0;
      SameQuiz(s, r) && (!e.ContinueClicked? ==> r.progressSaved == s.progressSaved)
  {
  }

  /** With fewer than `QuestionsPerSession` questions the Next guard still
      counts to the constant, so after the last question the page shows no
      question and the quiz record never changes again: no action
      completes, saves or retries the quiz. */
  lemma {:induction false} StalledForever(s: State, log: seq<ProgressEntry>, user: string, sessionId: string, events: seq<Event>)
    requires Valid(s) && Stalled(s)
    ensures SameQuiz(s, Run(s, log, user, sessionId, events).0)
    decreases |events|
  {
    if |events| > 0 {
      StepOnStalled(s, log, user, sessionId, events[0]);
      StepKeepsValid(s, log, user, sessionId, events[0]);
      var (s1, log1) := Step(s, log, user, sessionId, events[0]);
      StalledForever(s1, log1, user, sessionId, events[1..]);
    }
  }

  /** Answering every question of a list shorter than `QuestionsPerSession`
      leaves the quiz stalled. */
  lemma ShortQuizStalls(s0: State, generated: seq<QuizItem>, choices: seq<string>)
    requires Valid(s0) && s0.questions == []
    requires 0 < |generated| < QuestionsPerSession && |choices| == |generated|
    requires forall k :: 0 <= k < |choices| ==> choices[k] in generated[k].options
    ensures var r := Play(StartQuiz(s0, generated), choices);
      r.answers == choices && Valid(r) && Stalled(r)
  {
    StartThenPlay(s0, generated, choices);
  }

  /** Seven correct answers out of ten pass; six do not. */
  lemma PassMarkIsInclusive(s: State)
    requires QuizReady(s) && s.feedbackShown && s.currentQ == QuestionsPerSession - 1
    ensures s.scores == [1, 1, 1, 1, 1, 1, 1, 0, 0, 0] ==> Advance(s).quizComplete && Advance(s).passedQuiz
    ensures s.scores == [1, 1, 1, 1, 1, 1, 0, 0, 0, 0] ==> Advance(s).quizComplete && !Advance(s).passedQuiz
  {
    var pass: seq<nat> := [1, 1, 1, 1, 1, 1, 1, 0, 0, 0];
    var fail: seq<nat> := [1, 1, 1, 1, 1, 1, 0, 0, 0, 0];
    assert Sum(pass[..7]) == 7 by {
      assert pass[..7] == seq(7, _ => 1);
      SumOfOnes(7);
    }
    SumZeroTail(pass, 7);
    assert Sum(fail[..6]) == 6 by {
      assert fail[..6] == seq(6, _ => 1);
      SumOfOnes(6);
    }
    SumZeroTail(fail, 6);
  }

  lemma {:induction false} SumOfOnes(n: nat)
    ensures Sum(seq(n, _ => 1)) == n
  {
    if n > 0 {
      assert seq(n, _ => 1)[..n - 1] == seq(n - 1, _ => 1);
      SumOfOnes(n - 1);
    }
  }

  lemma {:induction false} SumZeroTail(xs: seq<nat>, k: nat)
    requires k <= |xs|
    requires forall i :: k <= i < |xs| ==> xs[i] == 0
    ensures Sum(xs) == Sum(xs[..k])
    decreases |xs|
  {
    if |xs| > k {
      assert xs[..|xs| - 1][..k] == xs[..k];
      SumZeroTail(xs[..|xs| - 1], k);
    } else {
      assert xs[..k] == xs;
    }
  }

  // ---------------------------------------------------------------------
  // Modules and chat
  // ---------------------------------------------------------------------

  /** Module directories have distinct names, so Continue walks the sorted
      list one module at a time and stays on the last one. */
  lemma ContinueWalksModules(s: State, modules: seq<string>, i: nat)
    requires s.quizComplete && s.passedQuiz
    requires i < |modules| && modules[i] == s.selectedModule
    requires forall a, b :: 0 <= a < b < |modules| ==> modules[a] != modules[b]
    ensures i < |modules| - 1 ==> Continue(s, modules).selectedModule == modules[i + 1]
    ensures i == |modules| - 1 ==> Continue(s, modules).selectedModule == s.selectedModule
  {
    var idx := IndexOf(modules, s.selectedModule);
    assert idx == Some(i);
  }

  /** The summary button sends the fixed prompt once and is gone
      afterwards, whether or not the model answers: the flag is set before
      the call. A reply adds exactly that exchange to the transcript; a
      call that raises leaves the lone prompt. */
  lemma SummarySentOnce(s: State, log: seq<ProgressEntry>, user: string, sessionId: string,
                        reply1: Option<string>, reply2: Option<string>)
    requires Valid(s) && !s.summaryGenerated
    ensures var s1 := Step(s, log, user, sessionId, SummaryClicked(reply1)).0;
      && s1.summaryGenerated
      && (reply1.Some? ==>
            s1.chatHistory == s.chatHistory + [Turn(User, SummaryPrompt), Turn(Assistant, Strip(reply1.value))])
      && (reply1.None? ==> s1.chatHistory == s.chatHistory + [Turn(User, SummaryPrompt)])
      && SameQuiz(s, s1)
      && Step(s1, log, user, sessionId, SummaryClicked(reply2)).0 == s1
  {
  }

  /** Every chat action carries a reply: the model never raised. */
  predicate AllAnswered(events: seq<Event>) {
    forall k :: 0 <= k < |events| ==>
      (events[k].SummaryClicked? ==> events[k].summaryReply.Some?)
      && (events[k].SendClicked? ==> events[k].reply.Some?)
  }

  /** Only the chat actions touch the transcript. */
  lemma StepKeepsAlternation(s: State, log: seq<ProgressEntry>, user: string, sessionId: string, e: Event)
    requires Alternates(s.chatHistory)
    requires e.SummaryClicked? ==> e.summaryReply.Some?
    requires e.SendClicked? ==> e.reply.Some?
    ensures Alternates(Step(s, log, user, sessionId, e).0.chatHistory)
  {
    match e
    case SummaryClicked(reply) => SendChatKeepsAlternation(RequestSummary(s), "", false, reply);
    case SendClicked(typed, reply) => SendChatKeepsAlternation(s, typed, true, reply);
    case _ =>
  }

  /** While the model always answers, the transcript stays in strict
      user/assistant alternation over any run. */
  lemma {:induction false} RunKeepsAlternation(s: State, log: seq<ProgressEntry>, user: string, sessionId: string, events: seq<Event>)
    requires Alternates(s.chatHistory) && AllAnswered(events)
    ensures Alternates(Run(s, log, user, sessionId, events).0.chatHistory)
    decreases |events|
  {
    if |events| > 0 {
      StepKeepsAlternation(s, log, user, sessionId, events[0]);
      var (s1, log1) := Step(s, log, user, sessionId, events[0]);
      assert AllAnswered(events[1..]) by {
        forall k | 0 <= k < |events[1..]|
          ensures (events[1..][k].SummaryClicked? ==> events[1..][k].summaryReply.Some?)
               && (events[1..][k].SendClicked? ==> events[1..][k].reply.Some?)
        {
          assert events[1..][k] == events[k + 1];
        }
      }
      RunKeepsAlternation(s1, log1, user, sessionId, events[1..]);
    }
  }

  /** A model call that raises leaves a lone prompt in an alternating
      transcript. The session stays valid, since its invariant only asks
      that every reply answers a prompt. */
  lemma FailedCallLeavesLonePrompt(s: State, log: seq<ProgressEntry>, user: string, sessionId: string, typed: string)
    requires Valid(s) && Alternates(s.chatHistory) && s.pendingPrompt == None && typed != ""
    ensures var r := Step(s, log, user, sessionId, SendClicked(typed, None)).0;
      && !Alternates(r.chatHistory)
      && r.chatHistory == s.chatHistory + [Turn(User, typed)]
      && Valid(r)
  {
    SendChatKeepsValid(s, typed, true, None);
    ExchangeShape(s.chatHistory, typed, None);
  }
}
