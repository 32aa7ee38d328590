/** The review-state rules of `handleFeedbackResponse`: how a self-assessment
    moves a card's confidence and status and the session's counters. */
module Review {
  import opened Maths

  /** The four self-assessment buttons. */
  datatype Response = Struggle | Think | Flow | Instant

  datatype Status = New | Learning | Review | Mastered

  /** `sessionStats`. */
  datatype SessionStats = SessionStats(correct: nat, total: nat, streak: nat, maxStreak: nat, xp: nat, focusScore: int)

  /** The statistics of a freshly constructed application. */
  const InitialStats := SessionStats(0, 0, 0, 0, 0, 85)

  /** Flow and instant count as correct recalls. */
  predicate IsCorrect(r: Response) {
    r == Flow || r == Instant
  }

  /** The `confidenceChanges` table. */
  function ConfidenceDelta(r: Response): int {
    match r
    case Struggle => -15
    case Think => -5
    case Flow => 10
    case Instant => 20
  }


  /** `Math.max(0, Math.min(100, confidence + delta))`: the shifted confidence,
      clamped to [0, 100] whatever the starting value. */
  function ConfidenceAfter(confidence: int, r: Response): (c: int)
    ensures 0 <= c <= 100
    ensures 0 <= confidence + ConfidenceDelta(r) <= 100 ==> c == confidence + ConfidenceDelta(r)
    ensures confidence + ConfidenceDelta(r) < 0 ==> c == 0
    ensures confidence + ConfidenceDelta(r) > 100 ==> c == 100
  {
    Max(0, Min(100, confidence + ConfidenceDelta(r)))
  }

  /** The status chosen from the response and the already updated confidence. */
  function StatusAfter(r: Response, newConfidence: int): (s: Status)
    ensures s != New
    ensures s == Mastered <==> r == Instant && newConfidence > 80
    ensures s == Learning <==> r == Struggle
  {
    if r == Instant && newConfidence > 80 then Mastered
    else if r == Struggle then Learning
    else Review
  }

  /** An instant recall masters a card exactly when its confidence before the
      review was above 60, since the status looks at the updated confidence. */
  lemma InstantMasters(confidence: int)
    ensures StatusAfter(Instant, ConfidenceAfter(confidence, Instant)) == Mastered <==> confidence > 60
  {
  }

  /** The session counters after one answered card. */
  function StatsAfter(s: SessionStats, r: Response): (t: SessionStats)
    ensures t.total == s.total + 1
    ensures t.focusScore == s.focusScore
    ensures IsCorrect(r) ==> t.correct == s.correct + 1 && t.streak == s.streak + 1
    ensures IsCorrect(r) ==> t.maxStreak == Max(s.maxStreak, t.streak)
    ensures !IsCorrect(r) ==> t.correct == s.correct && t.streak == 0 && t.maxStreak == s.maxStreak
    ensures t.xp == s.xp + (match r case Instant => 15 case Flow => 10 case Think => 5 case Struggle => 2)
  {
    if IsCorrect(r) then
      var streak := s.streak + 1;
      s.(correct := s.correct + 1, streak := streak, maxStreak := Max(s.maxStreak, streak),
         xp := s.xp + (if r == Instant then 15 else 10), total := s.total + 1)
    else
      s.(streak := 0, xp := s.xp + (if r == Think then 5 else 2), total := s.total + 1)
  }

  /** `startStudying` resets every counter but keeps XP and the focus score. */
  function ResetForSession(s: SessionStats): (t: SessionStats)
    ensures t.xp == s.xp && t.focusScore == s.focusScore
    ensures t.correct == 0 && t.total == 0 && t.streak == 0 && t.maxStreak == 0
  {
    SessionStats(0, 0, 0, 0, s.xp, s.focusScore)
  }

  /** The relations between the counters that every session keeps. */
  predicate Consistent(s: SessionStats) {
    s.streak <= s.maxStreak <= s.correct <= s.total
  }

  lemma ResetIsConsistent(s: SessionStats)
    ensures Consistent(ResetForSession(s))
  {
  }

  lemma StatsAfterConsistent(s: SessionStats, r: Response)
    requires Consistent(s)
    ensures Consistent(StatsAfter(s, r))
  {
  }

  /** The counters after a whole sequence of answers, oldest first. */
  function StatsAfterAll(s: SessionStats, rs: seq<Response>): SessionStats
    decreases |rs|
  {
    if rs == [] then s else StatsAfter(StatsAfterAll(s, rs[..|rs| - 1]), rs[|rs| - 1])
  }

  function CorrectCount(rs: seq<Response>): nat
    decreases |rs|
  {
    if rs == [] then 0 else CorrectCount(rs[..|rs| - 1]) + (if IsCorrect(rs[|rs| - 1]) then 1 else 0)
  }

  /** The length of the run of correct answers that ends the sequence. */
  function TrailingCorrect(rs: seq<Response>): nat
    decreases |rs|
  {
    if rs == [] || !IsCorrect(rs[|rs| - 1]) then 0 else TrailingCorrect(rs[..|rs| - 1]) + 1
  }

  /** Over any sequence of answers: `total` counts them all, `correct` counts the
      flow and instant ones, XP grows by at least 2 per answer, the streak is the
      trailing run of correct answers (carried on from the old streak when the
      sequence has no miss), and the counters stay consistent. */
  lemma {:induction false} StatsAfterAllEffects(s: SessionStats, rs: seq<Response>)
    requires Consistent(s)
    decreases |rs|
    ensures var t := StatsAfterAll(s, rs);
      && t.total == s.total + |rs|
      && t.correct == s.correct + CorrectCount(rs)
      && t.xp >= s.xp + 2 * |rs|
      && t.focusScore == s.focusScore
      && t.streak == (if TrailingCorrect(rs) == |rs| then s.streak else 0) + TrailingCorrect(rs)
      && t.maxStreak >= s.maxStreak
      && Consistent(t)
  {
    if rs != [] {
      var init := rs[..|rs| - 1];
      StatsAfterAllEffects(s, init);
      StatsAfterConsistent(StatsAfterAll(s, init), rs[|rs| - 1]);
    }
  }

  /** The confidence after a sequence of answers, oldest first. */
  function ConfidenceAfterAll(confidence: int, rs: seq<Response>): int
    decreases |rs|
  {
    if rs == [] then confidence else ConfidenceAfter(ConfidenceAfterAll(confidence, rs[..|rs| - 1]), rs[|rs| - 1])
  }

  /** However far outside [0, 100] a stored confidence starts, one answer brings
      it inside, and no sequence of answers takes it out again. */
  lemma ConfidenceAfterAllInRange(confidence: int, rs: seq<Response>)
    requires rs != [] || 0 <= confidence <= 100
    decreases |rs|
    ensures 0 <= ConfidenceAfterAll(confidence, rs) <= 100
  {
  }

  /** Instant recalls carry a confidence of 70 to 90, then 100, and keep it at 100. */
  lemma {:induction false} RepeatedInstant(confidence: int, n: nat)
    requires 0 <= confidence <= 100
    ensures var c := ConfidenceAfterAll(confidence, seq(n, _ => Instant));
      c == Min(100, confidence + 20 * n)
  {
    if n > 0 {
      RepeatedInstant(confidence, n - 1);
      assert seq(n, _ => Instant)[..n - 1] == seq(n - 1, _ => Instant);
    }
  }
}
