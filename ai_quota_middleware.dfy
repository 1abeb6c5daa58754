/**
 * The AI quota guard: a signed-in user with a verified email may ask at most
 * ten AI questions. The user's row is an input: the database's answer to the
 * lookup, or the error the lookup failed with.
 */
module AiQuotaMiddleware {
  import opened Wrappers
  import opened Strings
  import opened AuthMiddleware

  const MaxAiQuestions: nat := 10

  /** The columns of the user's row the guard reads. */
  datatype UsageRow = UsageRow(emailVerified: bool, aiQuestionsUsed: int)

  /** The guard either refuses with a response or lets the request through with its usage. */
  datatype Decision = Refuse(response: Response) | Allow(usage: AiUsage)

  const Unauthorized: string := "Unauthorized."
  const UserNotFound: string := "User not found."
  const VerifyEmail: string := "Please verify your email to use AI."
  const QuotaExhausted: string := "AI quota exhausted."
  const QuotaFailed: string := "Failed to check AI quota."

  function QuotaMessage(): string {
    "You have used all " + NatToString(MaxAiQuestions) + " AI questions for this account."
  }

  /**
   * `checkAiQuota`'s decision. The guards are tried in order: no signed-in
   * user, a failed lookup, no row, an unverified email, an exhausted quota;
   * only a verified user below the limit is let through, with the questions
   * left.
   */
  function QuotaDecision(user: Option<AuthUser>, lookup: Result<Option<UsageRow>>): (d: Decision)
    ensures user.None? ==> d == Refuse(Response(401, Unauthorized, None))
    ensures user.Some? && lookup.Err? ==> d == Refuse(Response(500, QuotaFailed, None))
    ensures user.Some? && lookup == Ok(None) ==> d == Refuse(Response(401, UserNotFound, None))
    ensures d.Allow? <==> (user.Some? && lookup.Ok? && lookup.value.Some?
      && lookup.value.value.emailVerified && lookup.value.value.aiQuestionsUsed < MaxAiQuestions)
    ensures d.Allow? ==> (d.usage.used == lookup.value.value.aiQuestionsUsed
      && d.usage.remaining > 0 && d.usage.used + d.usage.remaining == MaxAiQuestions)
  {
    if user.None? then Refuse(Response(401, Unauthorized, None))
    else if lookup.Err? then Refuse(Response(500, QuotaFailed, None))
    else if lookup.value.None? then Refuse(Response(401, UserNotFound, None))
    else
      var row := lookup.value.value;
      if !row.emailVerified then Refuse(Response(403, VerifyEmail, None))
      else if row.aiQuestionsUsed >= MaxAiQuestions then Refuse(Response(429, QuotaExhausted, Some(QuotaMessage())))
      else Allow(AiUsage(row.aiQuestionsUsed, MaxAiQuestions - row.aiQuestionsUsed))
  }

  /**
   * The status of a refusal for a user with a row: 403 for an unverified
   * email whatever the count (the verification guard comes first), 429 for
   * a verified user at or over the limit.
   */
  lemma RefusalForRow(user: AuthUser, row: UsageRow)
    ensures var d := QuotaDecision(Some(user), Ok(Some(row)));
      && (!row.emailVerified ==> d.Refuse? && d.response.status == 403)
      && (row.emailVerified && row.aiQuestionsUsed >= MaxAiQuestions ==>
            d.Refuse? && d.response.status == 429 && d.response.error == QuotaExhausted)
  {
  }

  /**
   * Counting one more question takes one from what is left, and the
   * question after the last one is refused with 429.
   */
  lemma OneQuestionLess(user: AuthUser, used: int)
    requires QuotaDecision(Some(user), Ok(Some(UsageRow(true, used)))).Allow?
    ensures var before := QuotaDecision(Some(user), Ok(Some(UsageRow(true, used))));
      var after := QuotaDecision(Some(user), Ok(Some(UsageRow(true, used + 1))));
      if before.usage.remaining == 1 then after.Refuse? && after.response.status == 429
      else after.Allow? && after.usage.remaining == before.usage.remaining - 1
  {
  }

  /**
   * `checkAiQuota`: a refused request is answered and left as it was; an
   * allowed one carries its usage and is passed on.
   */
  method CheckAiQuota(req: AuthRequest, lookup: Result<Option<UsageRow>>) returns (outcome: Outcome)
    modifies req
    ensures var d := QuotaDecision(old(req.user), lookup);
      && (d.Refuse? ==> outcome == Responded(d.response) && req.aiUsage == old(req.aiUsage))
      && (d.Allow? ==> outcome == Next && req.aiUsage == Some(d.usage))
    ensures req.user == old(req.user)
  {
    var d := QuotaDecision(req.user, lookup);
    if d.Refuse? {
      return Responded(d.response);
    }
    req.aiUsage := Some(d.usage);
    return Next;
  }
}
