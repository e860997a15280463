/**
 The per-user session record of the training page and the handlers that
 change it. Each handler is one block of the page script, written as a
 pure `(state, input) -> state` function; a handler whose button the page
 would not draw in that state leaves the state as it is. Question
 generation, the progress save and the model's chat reply arrive as
 opaque inputs.
 */
module Session {
  import opened Wrappers
  import opened Text
  import opened Grading
  import opened QuizItems

  const QuestionsPerSession: nat := 10
  const PassingScore: nat := 7
  const SummaryPrompt: string := "Generate a training summary based on the material."

  datatype Role = User | Assistant

  datatype Turn = Turn(role: Role, message: string)

  /** One row of the shared progress log; the timestamp is left out. */
  datatype ProgressEntry = ProgressEntry(moduleName: string, user: string, score: nat, sessionId: string)

  datatype State = State(
    // the quiz record, defaults at lines 164-174
    questions: seq<QuizItem>,
    currentQ: nat,
    answers: seq<string>,
    scores: seq<nat>,
    feedbackShown: bool,
    lastCorrect: Option<bool>,
    quizComplete: bool,
    passedQuiz: bool,
    questionsLoading: bool,
    // the rest of the session
    progressSaved: bool,
    selectedModule: string,
    chatHistory: seq<Turn>,
    summaryGenerated: bool,
    pendingPrompt: Option<string>)

  /** Python's `sum` over the score list. The total is zero exactly when
      every score is, and a list of 0/1 scores sums to at most its length. */
  function Sum(xs: seq<nat>): (r: nat)
    ensures r == 0 <==> forall i :: 0 <= i < |xs| ==> xs[i] == 0
    ensures (forall i :: 0 <= i < |xs| ==> xs[i] <= 1) ==> r <= |xs|
  {
    if |xs| == 0 then 0 else Sum(xs[..|xs| - 1]) + xs[|xs| - 1]
  }

  /** Line 277: a 0/1 score, 1 exactly when the option matches. */
  function ScoreOf(option: string, answer: string): (r: nat)
    ensures r <= 1
    ensures r == 1 <==> EvaluateAnswer(option, answer)
  {
    if EvaluateAnswer(option, answer) then 1 else 0
  }

  // ---------------------------------------------------------------------
  // Shapes of states
  // ---------------------------------------------------------------------

  /** Every quiz field holds its default. */
  predicate QuizAtDefault(s: State) {
    && s.questions == []
    && s.currentQ == 0
    && s.answers == []
    && s.scores == []
    && !s.feedbackShown
    && s.lastCorrect == None
    && !s.quizComplete
    && !s.passedQuiz
    && !s.questionsLoading
  }

  /** The progress fields of a quiz that has not had an answer yet. */
  predicate AtQuizStart(s: State) {
    && s.currentQ == 0
    && s.answers == []
    && s.scores == []
    && !s.feedbackShown
    && s.lastCorrect == None
    && !s.quizComplete
    && !s.passedQuiz
  }

  /** The fields outside the quiz record agree. */
  predicate SameOutsideQuiz(s: State, r: State) {
    && r.progressSaved == s.progressSaved
    && r.selectedModule == s.selectedModule
    && r.chatHistory == s.chatHistory
    && r.summaryGenerated == s.summaryGenerated
    && r.pendingPrompt == s.pendingPrompt
  }

  /** The quiz record agrees. */
  predicate SameQuiz(s: State, r: State) {
    && r.questions == s.questions
    && r.currentQ == s.currentQ
    && r.answers == s.answers
    && r.scores == s.scores
    && r.feedbackShown == s.feedbackShown
    && r.lastCorrect == s.lastCorrect
    && r.quizComplete == s.quizComplete
    && r.passedQuiz == s.passedQuiz
    && r.questionsLoading == s.questionsLoading
  }

  /** Line 262: a question is on screen. */
  predicate QuizReady(s: State) {
    |s.questions| > 0 && s.currentQ < |s.questions|
  }

  /** The transcript is user and assistant turns in alternation. */
  predicate Alternates(h: seq<Turn>) {
    && |h| % 2 == 0
    && forall i :: 0 <= i < |h| ==> h[i].role == (if i % 2 == 0 then User else Assistant)
  }

  /** Every assistant turn answers the user turn just before it; a user
      turn may stand alone, after a model call that raised. */
  predicate RepliesFollowPrompts(h: seq<Turn>) {
    forall j :: 0 < j < |h| && h[j].role == Assistant ==> h[j - 1].role == User
  }

  predicate OpensWithUser(h: seq<Turn>) {
    |h| > 0 ==> h[0].role == User
  }

  /** Strict alternation is the special case with no lone user turn. */
  lemma AlternatesFollowPrompts(h: seq<Turn>)
    requires Alternates(h)
    ensures RepliesFollowPrompts(h) && OpensWithUser(h)
  {
  }

  /** What the quiz record of every reachable session satisfies: one score
      per answer, each answer an option of its question and scored against
      that question's answer, the feedback flags in step, and a complete
      quiz carrying its pass verdict. */
  predicate QuizValid(s: State) {
    && |s.answers| == |s.scores|
    && s.currentQ < QuestionsPerSession
    && s.currentQ <= |s.questions|
    && (s.feedbackShown ==> s.currentQ < |s.questions|)
    && |s.answers| == s.currentQ + (if s.feedbackShown then 1 else 0)
    && (forall k :: 0 <= k < |s.answers| ==>
          s.answers[k] in s.questions[k].options
          && s.scores[k] == ScoreOf(s.answers[k], s.questions[k].answer))
    && (s.feedbackShown <==> s.lastCorrect.Some?)
    && (s.feedbackShown ==> s.lastCorrect.value == (s.scores[|s.scores| - 1] == 1))
    && (s.quizComplete ==>
          s.feedbackShown && s.currentQ == QuestionsPerSession - 1
          && s.passedQuiz == (Sum(s.scores) >= PassingScore))
    && (s.passedQuiz ==> s.quizComplete)
  }

  /** Every reply in the transcript answers a user turn, the transcript
      opens with a user turn, and only the summary prompt is ever queued,
      and only before a summary was sent. */
  predicate ChatValid(s: State) {
    && RepliesFollowPrompts(s.chatHistory)
    && OpensWithUser(s.chatHistory)
    && (s.pendingPrompt.Some? ==> s.pendingPrompt.value == SummaryPrompt && !s.summaryGenerated)
  }

  /** What every reachable session satisfies. */
  predicate Valid(s: State) {
    QuizValid(s) && ChatValid(s)
  }

  lemma SameQuizKeepsValid(s: State, r: State)
    requires QuizValid(s) && SameQuiz(s, r)
    ensures QuizValid(r)
  {
  }

  /** A fresh session on the first module (lines 113, 164-177, 368-372). */
  function Initial(firstModule: string): (s: State)
    ensures QuizAtDefault(s) && !s.progressSaved && s.selectedModule == firstModule
    ensures s.chatHistory == [] && !s.summaryGenerated && s.pendingPrompt == None
    ensures Valid(s)
  {
    State([], 0, [], [], false, None, false, false, false, false, firstModule, [], false, None)
  }

  // ---------------------------------------------------------------------
  // Quiz handlers
  // ---------------------------------------------------------------------

  /** Lines 217-236. The button is drawn only while there are no questions.
      A non-empty generated list starts the quiz on it; an empty one only
      clears the loading flag. */
  function StartQuiz(s: State, generated: seq<QuizItem>): (r: State)
    ensures s.questions != [] ==> r == s
    ensures s.questions == [] && generated != [] ==>
      r.questions == generated && AtQuizStart(r) && !r.questionsLoading && SameOutsideQuiz(s, r)
    ensures s.questions == [] && generated == [] ==> r == s.(questionsLoading := false)
  {
    if s.questions != [] then
      s
    else if generated != [] then
      s.(questions := generated, currentQ := 0, answers := [], scores := [],
         feedbackShown := false, lastCorrect := None, quizComplete := false,
         passedQuiz := false, questionsLoading := false)
    else
      s.(questionsLoading := false)
  }

  /** The option buttons are drawn while a question is on screen and no
      feedback is shown. */
  predicate OptionOffered(s: State, option: string) {
    QuizReady(s) && !s.feedbackShown && option in s.questions[s.currentQ].options
  }

  /** Lines 270-280. Choosing an offered option appends it to the answers
      and its score (1 when it matches the expected answer, else 0) to the
      scores, records the verdict and shows feedback; nothing else moves. */
  function SelectOption(s: State, option: string): (r: State)
    ensures OptionOffered(s, option) ==>
      var correct := EvaluateAnswer(option, s.questions[s.currentQ].answer);
      && r.answers == s.answers + [option]
      && r.scores == s.scores + [if correct then 1 else 0]
      && r.lastCorrect == Some(correct)
      && r.feedbackShown
      && r.(answers := s.answers, scores := s.scores, lastCorrect := s.lastCorrect,
            feedbackShown := s.feedbackShown) == s
    ensures !OptionOffered(s, option) ==> r == s
  {
    if OptionOffered(s, option) then
      var correct := EvaluateAnswer(option, s.questions[s.currentQ].answer);
      s.(answers := s.answers + [option],
         scores := s.scores + [if correct then 1 else 0],
         lastCorrect := Some(correct),
         feedbackShown := true)
    else
      s
  }

  /** Lines 282-298, run while feedback is on screen. Below question
      `QuestionsPerSession - 1` the Next button moves to the next question
      and hides the feedback; from there on the quiz is complete and passed
      when the score total reaches `PassingScore`. The bound is the
      constant, not the number of questions. */
  function Advance(s: State): (r: State)
    ensures !(QuizReady(s) && s.feedbackShown) ==> r == s
    ensures QuizReady(s) && s.feedbackShown && s.currentQ < QuestionsPerSession - 1 ==>
      r == s.(currentQ := s.currentQ + 1, feedbackShown := false, lastCorrect := None)
    ensures QuizReady(s) && s.feedbackShown && s.currentQ >= QuestionsPerSession - 1 ==>
      r == s.(quizComplete := true, passedQuiz := Sum(s.scores) >= PassingScore)
  {
    if QuizReady(s) && s.feedbackShown then
      if s.currentQ < QuestionsPerSession - 1 then
        s.(currentQ := s.currentQ + 1, feedbackShown := false, lastCorrect := None)
      else
        s.(quizComplete := true, passedQuiz := Sum(s.scores) >= PassingScore)
    else
      s
  }

  /** Lines 305-311. While the quiz is complete and not yet saved, a save is
      attempted; only a successful one appends an entry (module, user,
      score total) and sets the flag. Nothing else changes. */
  function RecordProgress(s: State, log: seq<ProgressEntry>, user: string, sessionId: string, saveOk: bool)
    : (r: (State, seq<ProgressEntry>))
    ensures r.0 == s.(progressSaved := r.0.progressSaved)
    ensures r.0.progressSaved == (s.progressSaved || (s.quizComplete && saveOk))
    ensures s.quizComplete && !s.progressSaved && saveOk ==>
      r.1 == log + [ProgressEntry(s.selectedModule, user, Sum(s.scores), sessionId)]
    ensures !(s.quizComplete && !s.progressSaved && saveOk) ==> r.1 == log
  {
    if s.quizComplete && !s.progressSaved && saveOk then
      (s.(progressSaved := true), log + [ProgressEntry(s.selectedModule, user, Sum(s.scores), sessionId)])
    else
      (s, log)
  }

  /** Lines 321-332. A failed, complete quiz is replaced by a freshly
      generated one (possibly empty) and starts over; the progress flag is
      not reset, so the retried attempt is not logged. */
  function Retry(s: State, regenerated: seq<QuizItem>): (r: State)
    ensures s.quizComplete && !s.passedQuiz ==>
      && r.questions == regenerated
      && AtQuizStart(r)
      && r.questionsLoading == s.questionsLoading
      && SameOutsideQuiz(s, r)
    ensures !(s.quizComplete && !s.passedQuiz) ==> r == s
  {
    if s.quizComplete && !s.passedQuiz then
      s.(questions := regenerated, currentQ := 0, answers := [], scores := [],
         feedbackShown := false, lastCorrect := None, quizComplete := false,
         passedQuiz := false)
    else
      s
  }

  /** `list.index`: the first position holding `x`, or nothing. */
  function IndexOf(xs: seq<string>, x: string): (r: Option<nat>)
    ensures r.Some? ==> r.value < |xs| && xs[r.value] == x && forall j :: 0 <= j < r.value ==> xs[j] != x
    ensures r.None? <==> x !in xs
  {
    if |xs| == 0 then None
    else if xs[0] == x then Some(0)
    else match IndexOf(xs[1..], x)
      case Some(i) => Some(i + 1)
      case None => None
  }

  /** Lines 351-365. The Continue button sits in the completion view,
      which only a passed quiz reaches: a failed one is retried in the
      same run (line 332). It moves to the module after the first
      occurrence of the current one when there is one, otherwise keeps
      the module; it resets every quiz field to its default and clears
      the progress flag. */
  function Continue(s: State, modules: seq<string>): (r: State)
    ensures !(s.quizComplete && s.passedQuiz) ==> r == s
    ensures s.quizComplete && s.passedQuiz ==>
      && QuizAtDefault(r)
      && !r.progressSaved
      && r.chatHistory == s.chatHistory
      && r.summaryGenerated == s.summaryGenerated
      && r.pendingPrompt == s.pendingPrompt
    ensures s.quizComplete && s.passedQuiz ==>
      forall i :: (0 <= i < |modules| - 1 && modules[i] == s.selectedModule
                   && forall j :: 0 <= j < i ==> modules[j] != s.selectedModule) ==>
        r.selectedModule == modules[i + 1]
    ensures s.quizComplete && s.passedQuiz &&
            (s.selectedModule !in modules || IndexOf(modules, s.selectedModule) == Some(|modules| - 1)) ==>
      r.selectedModule == s.selectedModule
  {
    if s.quizComplete && s.passedQuiz then
      var next :=
        match IndexOf(modules, s.selectedModule)
        case Some(i) => if i < |modules| - 1 then modules[i + 1] else s.selectedModule
        case None => s.selectedModule;
      s.(selectedModule := next,
         questions := [], currentQ := 0, answers := [], scores := [],
         feedbackShown := false, lastCorrect := None, quizComplete := false,
         passedQuiz := false, questionsLoading := false,
         progressSaved := false)
    else
      s
  }

  // ---------------------------------------------------------------------
  // Chat handlers
  // ---------------------------------------------------------------------

  /** Lines 375-377. The summary button is drawn until a summary was sent;
      pressing it queues the fixed summary prompt. */
  function RequestSummary(s: State): (r: State)
    ensures !s.summaryGenerated ==> r == s.(pendingPrompt := Some(SummaryPrompt))
    ensures s.summaryGenerated ==> r == s
  {
    if s.summaryGenerated then s else s.(pendingPrompt := Some(SummaryPrompt))
  }

  /** Line 427, then the model call of line 442, then line 449. The user
      turn is appended before the call; a reply (`Some`) adds the
      assistant's stripped reply after it, while a call that raises
      (`None`) ends the run with the lone user turn in the transcript. */
  function Exchange(h: seq<Turn>, prompt: string, reply: Option<string>): (r: seq<Turn>)
    ensures reply.Some? ==> |r| == |h| + 2 && r[..|h|] == h
    ensures reply.Some? ==> r[|h|] == Turn(User, prompt) && r[|h| + 1] == Turn(Assistant, Strip(reply.value))
    ensures reply.None? ==> |r| == |h| + 1 && r[..|h|] == h && r[|h|] == Turn(User, prompt)
  {
    match reply
    case Some(text) => h + [Turn(User, prompt), Turn(Assistant, Strip(text))]
    case None => h + [Turn(User, prompt)]
  }

  /** What an exchange does to the shape of the transcript: a reply keeps
      it alternating, a raising call breaks the alternation, and every
      reply still answers a prompt. */
  lemma ExchangeShape(h: seq<Turn>, prompt: string, reply: Option<string>)
    ensures reply.Some? && Alternates(h) ==> Alternates(Exchange(h, prompt, reply))
    ensures reply.None? && |h| % 2 == 0 ==> !Alternates(Exchange(h, prompt, reply))
    ensures RepliesFollowPrompts(h) ==> RepliesFollowPrompts(Exchange(h, prompt, reply))
    ensures OpensWithUser(h) ==> OpensWithUser(Exchange(h, prompt, reply))
  {
    var r := Exchange(h, prompt, reply);
    assert forall i :: 0 <= i < |h| ==> r[i] == h[i];
    assert r[|h|].role == User;
    if reply.None? {
      assert |h| % 2 == 0 ==> |r| % 2 == 1;
    } else {
      assert r[|h| + 1].role == Assistant;
    }
  }

  /** Lines 414-427, 442 and 449. A queued summary prompt goes first and
      marks the summary as generated, before the model is called;
      otherwise a non-empty typed prompt goes when Send was pressed. A
      prompt that goes adds the user turn and, when the model replies,
      the assistant's stripped reply to the transcript. The quiz, the
      module and the progress flag are never touched. */
  function SendChat(s: State, typed: string, sendPressed: bool, reply: Option<string>): (r: State)
    ensures SameQuiz(s, r) && r.progressSaved == s.progressSaved && r.selectedModule == s.selectedModule
    ensures s.pendingPrompt.Some? ==>
      && r.pendingPrompt == None
      && r.summaryGenerated
      && (s.pendingPrompt.value != "" && reply.Some? ==>
            r.chatHistory == s.chatHistory + [Turn(User, s.pendingPrompt.value), Turn(Assistant, Strip(reply.value))])
      && (s.pendingPrompt.value != "" && reply.None? ==>
            r.chatHistory == s.chatHistory + [Turn(User, s.pendingPrompt.value)])
      && (s.pendingPrompt.value == "" ==> r.chatHistory == s.chatHistory)
    ensures s.pendingPrompt.None? ==> r.pendingPrompt == None && r.summaryGenerated == s.summaryGenerated
    ensures s.pendingPrompt.None? && sendPressed && typed != "" && reply.Some? ==>
      r.chatHistory == s.chatHistory + [Turn(User, typed), Turn(Assistant, Strip(reply.value))]
    ensures s.pendingPrompt.None? && sendPressed && typed != "" && reply.None? ==>
      r.chatHistory == s.chatHistory + [Turn(User, typed)]
    ensures s.pendingPrompt.None? && !(sendPressed && typed != "") ==> r == s
  {
    if s.pendingPrompt.Some? then
      var prompt := s.pendingPrompt.value;
      var popped := s.(pendingPrompt := None, summaryGenerated := true);
      if prompt != "" then popped.(chatHistory := Exchange(s.chatHistory, prompt, reply)) else popped
    else if sendPressed && typed != "" then
      s.(chatHistory := Exchange(s.chatHistory, typed, reply))
    else
      s
  }

  /** When the model answers, a chat send keeps the transcript in strict
      alternation. */
  lemma SendChatKeepsAlternation(s: State, typed: string, sendPressed: bool, reply: Option<string>)
    requires Alternates(s.chatHistory) && reply.Some?
    ensures Alternates(SendChat(s, typed, sendPressed, reply).chatHistory)
  {
    ExchangeShape(s.chatHistory, typed, reply);
    if s.pendingPrompt.Some? {
      ExchangeShape(s.chatHistory, s.pendingPrompt.value, reply);
    }
  }

  // ---------------------------------------------------------------------
  // Every handler keeps the session valid
  // ---------------------------------------------------------------------

  lemma StartQuizKeepsValid(s: State, generated: seq<QuizItem>)
    requires Valid(s)
    ensures Valid(StartQuiz(s, generated))
  {
  }

  lemma SelectOptionKeepsValid(s: State, option: string)
    requires Valid(s)
    ensures Valid(SelectOption(s, option))
  {
    if OptionOffered(s, option) {
      SelectOptionRecords(s, option);
    }
  }

  /** The new answer and score sit at the current question's index. */
  lemma SelectOptionRecords(s: State, option: string)
    requires QuizValid(s) && OptionOffered(s, option)
    ensures QuizValid(SelectOption(s, option))
  {
    var r := SelectOption(s, option);
    var k := |s.answers|;
    var correct := EvaluateAnswer(option, s.questions[k].answer);
    assert r == s.(answers := s.answers + [option], scores := s.scores + [if correct then 1 else 0],
                   lastCorrect := Some(correct), feedbackShown := true);
    assert k == s.currentQ;
    forall j | 0 <= j < |r.answers|
      ensures r.answers[j] in r.questions[j].options
      ensures r.scores[j] == ScoreOf(r.answers[j], r.questions[j].answer)
    {
      if j < k {
        assert r.answers[j] == s.answers[j] && r.scores[j] == s.scores[j];
      } else {
        assert r.answers[j] == option && r.scores[j] == ScoreOf(option, s.questions[k].answer);
      }
    }
    assert r.scores[|r.scores| - 1] == ScoreOf(option, s.questions[k].answer);
  }

  lemma NextQuestionKeepsValid(s: State)
    requires Valid(s) && QuizReady(s) && s.feedbackShown && s.currentQ < QuestionsPerSession - 1
    ensures Valid(Advance(s))
  {
  }

  lemma CompleteKeepsValid(s: State)
    requires Valid(s) && QuizReady(s) && s.feedbackShown && s.currentQ >= QuestionsPerSession - 1
    ensures Valid(Advance(s))
  {
    var r := s.(quizComplete := true, passedQuiz := Sum(s.scores) >= PassingScore);
    assert Advance(s) == r;
    CompletedQuizValid(s);
    SameChatKeepsValid(s, r);
  }

  lemma CompletedQuizValid(s: State)
    requires QuizValid(s) && s.feedbackShown && s.currentQ == QuestionsPerSession - 1
    ensures QuizValid(s.(quizComplete := true, passedQuiz := Sum(s.scores) >= PassingScore))
  {
  }

  /** Validity of the chat part depends only on the chat fields. */
  lemma SameChatKeepsValid(s: State, r: State)
    requires ChatValid(s)
    requires r.chatHistory == s.chatHistory && r.pendingPrompt == s.pendingPrompt
    requires r.summaryGenerated == s.summaryGenerated
    ensures ChatValid(r)
  {
  }

  lemma AdvanceKeepsValid(s: State)
    requires Valid(s)
    ensures Valid(Advance(s))
  {
    if QuizReady(s) && s.feedbackShown {
      if s.currentQ < QuestionsPerSession - 1 {
        NextQuestionKeepsValid(s);
      } else {
        CompleteKeepsValid(s);
      }
    }
  }

  lemma RecordProgressKeepsValid(s: State, log: seq<ProgressEntry>, user: string, sessionId: string, saveOk: bool)
    requires Valid(s)
    ensures Valid(RecordProgress(s, log, user, sessionId, saveOk).0)
  {
  }

  lemma RetryKeepsValid(s: State, regenerated: seq<QuizItem>)
    requires Valid(s)
    ensures Valid(Retry(s, regenerated))
  {
  }

  lemma ContinueKeepsValid(s: State, modules: seq<string>)
    requires Valid(s)
    ensures Valid(Continue(s, modules))
  {
  }

  lemma RequestSummaryKeepsValid(s: State)
    requires Valid(s)
    ensures Valid(RequestSummary(s))
  {
    SameQuizKeepsValid(s, RequestSummary(s));
  }

  lemma SendChatKeepsValid(s: State, typed: string, sendPressed: bool, reply: Option<string>)
    requires Valid(s)
    ensures Valid(SendChat(s, typed, sendPressed, reply))
  {
    SameQuizKeepsValid(s, SendChat(s, typed, sendPressed, reply));
    ExchangeShape(s.chatHistory, typed, reply);
    if s.pendingPrompt.Some? {
      ExchangeShape(s.chatHistory, s.pendingPrompt.value, reply);
    }
  }
}
