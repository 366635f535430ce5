/** The server action that handles a submitted lead form: validate, then the
    timing guard, then the rate limit, then success. The first stage that
    fails decides the result, and later stages do not run. */
module SubmitLead {
  import opened Wrappers
  import opened Decimal
  import opened SubmitLeadCore
  import opened RateLimit

  /** Every submission shares this one rate-limit key. */
  const RateLimitKey: string := "anon-session"
  const MaxSubmissions: int := 5
  const SubmissionWindowMs: int := 10 * 60 * 1000
  /** A form filled in faster than this is taken for a bot. */
  const MinFillTimeMs: int := 800

  const TooQuick: string := "Please take a moment and try again."
  const TooMany: string := "Too many requests. Please try again later."

  datatype SubmitLeadResult = SubmitLeadResult(ok: bool, message: Option<string>, softWarning: Option<string>)

  const ThanksPrefix: string := "Thanks! We'll be in touch. ("
  const ThanksSuffix: string := "ms)"

  /** The confirmation, with the handling time in milliseconds. */
  function ThanksMessage(elapsedMs: int): (m: string)
    ensures |m| > |ThanksPrefix| + |ThanksSuffix|
    ensures m[..|ThanksPrefix|] == ThanksPrefix
    ensures m[|m| - |ThanksSuffix|..] == ThanksSuffix
    ensures var shown := m[|ThanksPrefix|..|m| - |ThanksSuffix|];
      elapsedMs >= 0 ==> AllDigits(shown) && ParseNat(shown) == elapsedMs
  {
    var digits := ShowInt(elapsedMs);
    var m := ThanksPrefix + digits + ThanksSuffix;
    assert m[..|ThanksPrefix|] == ThanksPrefix;
    assert m[|m| - |ThanksSuffix|..] == ThanksSuffix;
    assert m[|ThanksPrefix|..|m| - |ThanksSuffix|] == digits;
    if elapsedMs >= 0 then ParseShowNat(elapsedMs); m else m
  }

  /** The timing guard trips when the client's start time is known and less
      than MinFillTimeMs has passed since it. */
  function TooQuickSince(t0: Option<string>, now: int): (tooQuick: bool)
    ensures tooQuick <==>
      && t0.Some? && AllDigits(t0.value) && ParseNat(t0.value) < NumberOverflow
      && now - ParseNat(t0.value) < MinFillTimeMs
  {
    var elapsed := ComputeElapsedMsFromT0(t0, now);
    elapsed.Some? && elapsed.value < MinFillTimeMs
  }

  /** The guard ignores a missing or empty start time, and for a start time
      rendered from the clock `ago` milliseconds before `now` it trips exactly
      when `ago` is under the minimum fill time. */
  lemma TimingGuard(now: nat, ago: nat)
    requires ago <= now < NumberOverflow
    ensures !TooQuickSince(None, now) && !TooQuickSince(Some(""), now)
    ensures TooQuickSince(Some(ShowNat(now - ago)), now) <==> ago < MinFillTimeMs
  {
    ElapsedFromPastStart(now, ago);
  }

  /** The action's module-level state: one limiter for the whole process. */
  class LeadAction {
    const limiter: InMemoryRateLimiter

    constructor ()
      ensures fresh(limiter)
      ensures limiter.maxRequests == MaxSubmissions && limiter.windowMs == SubmissionWindowMs
      ensures limiter.store == map[]
    {
      limiter := new InMemoryRateLimiter(MaxSubmissions, SubmissionWindowMs);
    }

    /** Handles one submission received at `tStart`; `now` is the clock
        reading the later stages use. */
    method SubmitLead(formData: FormEntries, tStart: int, now: int, isEmail: string -> bool)
      returns (result: SubmitLeadResult)
      modifies limiter
      // A rejected form: the validator's message; the limiter is not consulted.
      ensures var v := ValidateLead(ParseFormData(formData), isEmail);
        v.Rejected? ==>
          && result == SubmitLeadResult(false, Some(v.message), None)
          && limiter.store == old(limiter.store)
      // A form filled in too quickly: the limiter is not consulted either.
      ensures var input := ParseFormData(formData);
        ValidateLead(input, isEmail).Accepted? && TooQuickSince(input.t0, now) ==>
          && result == SubmitLeadResult(false, Some(TooQuick), None)
          && limiter.store == old(limiter.store)
      // Past both guards: exactly one check on the fixed key decides.
      ensures var input := ParseFormData(formData);
        var v := ValidateLead(input, isEmail);
        var recent := Record(old(limiter.Stored(RateLimitKey)), now, limiter.windowMs);
        v.Accepted? && !TooQuickSince(input.t0, now) ==>
          && limiter.store == old(limiter.store)[RateLimitKey := recent]
          && (result.ok <==> |recent| <= limiter.maxRequests)
          && (!result.ok ==> result == SubmitLeadResult(false, Some(TooMany), None))
          && (result.ok ==> result == SubmitLeadResult(true, Some(ThanksMessage(now - tStart)), v.softWarning))
    {
      var input := ParseFormData(formData);

      var validated := ValidateLead(input, isEmail);
      if validated.Rejected? {
        return SubmitLeadResult(false, Some(validated.message), None);
      }

      var elapsedClient := ComputeElapsedMsFromT0(input.t0, now);
      if elapsedClient.Some? && elapsedClient.value < MinFillTimeMs {
        return SubmitLeadResult(false, Some(TooQuick), None);
      }

      var allowed := limiter.Check(RateLimitKey, now);
      if !allowed {
        return SubmitLeadResult(false, Some(TooMany), None);
      }

      var elapsed := now - tStart;
      result := SubmitLeadResult(true, Some(ThanksMessage(elapsed)), validated.softWarning);
    }
  }

  /** Once the guard is past, it stays past: a later clock reading only
      lengthens the time since the start. */
  lemma GuardStaysPast(t0: Option<string>, earlier: int, now: int)
    requires earlier <= now && !TooQuickSince(t0, earlier)
    ensures !TooQuickSince(t0, now)
  {
  }

  /** The timestamps t, t + 1, ..., t + n - 1. */
  function Ticks(t: int, n: nat): (ts: seq<int>)
    ensures |ts| == n && forall i :: 0 <= i < n ==> ts[i] == t + i
  {
    if n == 0 then [] else Ticks(t, n - 1) + [t + n - 1]
  }

  /** A check at t + i after checks at t, ..., t + i - 1, all inside the
      window, stores t, ..., t + i. */
  lemma RecordTicks(t: int, i: nat, windowMs: int)
    requires i < windowMs
    ensures Record(Ticks(t, i), t + i, windowMs) == Ticks(t, i + 1)
  {
    RecordInWindow(Ticks(t, i), t + i, windowMs);
  }

  /** One submission, at `now`, of a form that passes validation and that
      passed the timing guard already at `start`: the limiter alone decides. */
  method SubmitPassing(action: LeadAction, form: FormEntries, isEmail: string -> bool, start: int, now: int)
    returns (r: SubmitLeadResult)
    requires ValidateLead(ParseFormData(form), isEmail).Accepted?
    requires start <= now && !TooQuickSince(ParseFormData(form).t0, start)
    modifies action.limiter
    ensures action.limiter.Stored(RateLimitKey)
      == Record(old(action.limiter.Stored(RateLimitKey)), now, action.limiter.windowMs)
    ensures r.ok <==> |action.limiter.Stored(RateLimitKey)| <= action.limiter.maxRequests
    ensures r.ok ==> r.softWarning == ValidateLead(ParseFormData(form), isEmail).softWarning
    ensures !r.ok ==> r == SubmitLeadResult(false, Some(TooMany), None)
  {
    GuardStaysPast(ParseFormData(form).t0, start, now);
    r := action.SubmitLead(form, now, now, isEmail);
  }

  /** The (i+1)-th submission of a burst that sends the form at t, t + 1, ...:
      it is stored with the earlier ones and admitted while at most five are. */
  method BurstStep(action: LeadAction, form: FormEntries, isEmail: string -> bool, t: int, i: nat)
    returns (r: SubmitLeadResult)
    requires ValidateLead(ParseFormData(form), isEmail).Accepted?
    requires !TooQuickSince(ParseFormData(form).t0, t)
    requires action.limiter.maxRequests == MaxSubmissions
    requires action.limiter.windowMs == SubmissionWindowMs
    requires action.limiter.Stored(RateLimitKey) == Ticks(t, i)
    requires i < SubmissionWindowMs
    modifies action.limiter
    ensures action.limiter.Stored(RateLimitKey) == Ticks(t, i + 1)
    ensures r.ok <==> i < MaxSubmissions
    ensures !r.ok ==> r == SubmitLeadResult(false, Some(TooMany), None)
  {
    RecordTicks(t, i, SubmissionWindowMs);
    r := SubmitPassing(action, form, isEmail, t, t + i);
  }

  /** A valid form whose start time, if any, is at least MinFillTimeMs before
      `t`, sent at t, t + 1, ..., t + 5 ms, is accepted five times and refused
      the sixth; the refused attempt is still stored, and once ten minutes
      have passed since it the form is accepted again. */
  method BurstOfSubmissions(form: FormEntries, isEmail: string -> bool, t: int)
    returns (results: seq<SubmitLeadResult>)
    requires ValidateLead(ParseFormData(form), isEmail).Accepted?
    requires !TooQuickSince(ParseFormData(form).t0, t)
    ensures |results| == 7
    ensures forall i :: 0 <= i < 5 ==> results[i].ok
    ensures results[5] == SubmitLeadResult(false, Some(TooMany), None)
    ensures results[6].ok
    ensures results[6].softWarning == ValidateLead(ParseFormData(form), isEmail).softWarning
  {
    var action := new LeadAction();
    results := [];
    var i := 0;
    while i < 6
      invariant 0 <= i <= 6 && |results| == i
      invariant action.limiter.maxRequests == MaxSubmissions
      invariant action.limiter.windowMs == SubmissionWindowMs
      invariant action.limiter.Stored(RateLimitKey) == Ticks(t, i)
      invariant forall j :: 0 <= j < i && j < 5 ==> results[j].ok
      invariant i == 6 ==> results[5] == SubmitLeadResult(false, Some(TooMany), None)
      modifies action.limiter
    {
      var r := BurstStep(action, form, isEmail, t, i);
      results := results + [r];
      i := i + 1;
    }
    RecordAfterQuiet(Ticks(t, 6), t + 600005, SubmissionWindowMs);
    var last := SubmitPassing(action, form, isEmail, t, t + 600005);
    results := results + [last];
  }
}
