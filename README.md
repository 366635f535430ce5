# Lead submission pipeline of the NeoNova landing page

This project models the server side of the lead form in Dafny. It also models the
3D scene's byte-budget report.

- `SubmitLeadCore` covers:
  - `isFreeMail`: the domain after the last `@`, lower-cased, looked up in the list of
    personal mail providers;
  - `parseFormData`: form entries become a lead, where the last entry for a key wins
    and empty optional fields become absent;
  - `validateLead`: the server schema, the honeypot field and the personal-email
    advisory;
  - `computeElapsedMsFromT0`: milliseconds since the client's start time.
- `RateLimit` models the in-memory sliding-window limiter. It is a class whose `store`
  maps a key to its timestamps, with `check`, `getCount` and `reset`. It also holds a
  trace theorem. `CheckRun` shows that successive checks of a fresh key leave the fold
  `Replay` of their timestamps in the store, with the verdicts `AdmittedAt` of that
  fold. For timestamps that never decrease, no window of `windowMs` then admits more
  than `maxRequests` checks.
- `SubmitLead` models the server action `submitLead`. It validates, applies the
  timing guard, applies the rate limit on one fixed key, then replies. A class holds the
  module-level limiter, configured for 5 submissions per 10 minutes.
- `WebglBudget` models `reportWebglBudget`.
- `Decimal` reads and writes digit strings. It stands for JavaScript's `Number(...)` on
  strings matching `^\d+$` and for rendering an integer below 10^21 in a template string.
- `Wrappers` holds `Option`. It stands for optional fields and `null` results.

## Model

| member | source | states |
|---|---|---|
| SubmitLeadCore.AfterLastAt | lib/actions/submitLeadCore.ts:47 | `split("@").pop()` is the suffix of the text after its last `@`: no `@` in it, preceded by `@` unless it is the whole text |
| SubmitLeadCore.ToLowerAscii | lib/actions/submitLeadCore.ts:47 | lower-casing keeps the length and maps each character on its own |
| SubmitLeadCore.IsFreeMail | lib/actions/submitLeadCore.ts:46-50 | free mail exactly when the lower-cased text after the last `@` is a listed provider, so the empty-domain guard never changes the answer; text without `@` is judged whole |
| SubmitLeadCore.FreeMailIsLowerCase | lib/actions/submitLeadCore.ts:27-44 | the provider list is already lower case, so its `.map(toLowerCase)` leaves it unchanged |
| SubmitLeadCore.DomainOfAddress | lib/actions/submitLeadCore.ts:47 | the domain taken from `local@domain` is `domain`, whatever the local part contains (including other `@`) |
| SubmitLeadCore.FreeMailByDomain | lib/actions/submitLeadCore.ts:46-50 | an address is free mail exactly when its domain, lower-cased, is in the provider list |
| SubmitLeadCore.FreeMailEdgeCases | lib/actions/submitLeadCore.ts:46-50 | an empty domain (trailing `@`, empty text) is never free mail |
| SubmitLeadCore.FreeMailGmail | lib/actions/submitLeadCore.test.ts:11-12 | every address at gmail.com is free mail, whatever its local part |
| SubmitLeadCore.FreeMailGmailCapitalised | lib/actions/submitLeadCore.ts:47-49 | the domain is lower-cased before the lookup, so an address at GMail.COM is free mail too |
| SubmitLeadCore.FreeMailCompany | lib/actions/submitLeadCore.test.ts:13 | an address at company.com is not free mail |
| SubmitLeadCore.LastValue | lib/actions/submitLeadCore.ts:53 | a key's value is absent exactly when no entry has the key |
| SubmitLeadCore.LastValueIsLastEntry | lib/actions/submitLeadCore.ts:53 | a value found for a key is the value of an entry with that key after which no entry has it |
| SubmitLeadCore.FromEntries | lib/actions/submitLeadCore.ts:53 | `Object.fromEntries`: a key is present exactly when some entry has it, and maps to the last such entry's value |
| SubmitLeadCore.ParseFormData | lib/actions/submitLeadCore.ts:52-62 | required fields take the posted value or `""`; an optional field is absent exactly when it is missing or empty, and otherwise holds the posted value |
| SubmitLeadCore.ParseFormDataRoundTrip | lib/actions/submitLeadCore.test.ts:16-25 | parsing the entries a lead posts gives back that lead (optional fields absent or non-empty) |
| SubmitLeadCore.SafeParse | lib/actions/submitLeadCore.ts:18-25 | the schema passes the lead through unchanged when it accepts it |
| SubmitLeadCore.ValidateLead | lib/actions/submitLeadCore.ts:101-113 | rejected, always with "Invalid form.", exactly when the honeypot is filled, a required field is empty, the address is not an email, or `t0` is not all digits; when accepted, the data is the input and the advisory is present exactly for free-mail addresses |
| SubmitLeadCore.ValidateWarnsOnFreeMail | lib/actions/submitLeadCore.test.ts:27-34 | a filled-in lead at gmail.com is accepted with the personal-email advisory |
| SubmitLeadCore.ComputeElapsedMsFromT0 | lib/actions/submitLeadCore.ts:94-99 | missing or empty `t0` gives none; a result is `now` minus the number `t0` denotes, and one exists exactly when that number is finite as a double |
| SubmitLeadCore.ElapsedFromPastStart | lib/actions/submitLeadCore.test.ts:46-51 | a start time rendered `ago` ms before `now` gives back `ago`, which is never negative |
| Decimal.ParseNat | lib/actions/submitLeadCore.ts:96 | a digit string of length n denotes a number below 10^n |
| Decimal.ShowNat | app/actions/submitLead.ts:46 | rendering a number gives digits without a leading zero |
| Decimal.ShowInt | app/actions/submitLead.ts:46 | rendering an integer starts with `-` exactly when it is negative |
| Decimal.ParseShowNat | lib/actions/submitLeadCore.ts:96 | reading back a rendered number gives the number |
| Decimal.ParseNatLeadingZero | lib/actions/submitLeadCore.ts:96 | a leading zero does not change the number a digit string denotes |
| RateLimit.KeepAfter | lib/actions/submitLeadCore.ts:76 | the filter keeps exactly the timestamps after the cutoff, and no more of them than there were |
| RateLimit.Record | lib/actions/submitLeadCore.ts:74-78 | the stored list after a check ends with `now`, and every earlier entry is inside the window |
| RateLimit.InMemoryRateLimiter.constructor | lib/actions/submitLeadCore.ts:69-71 | the limiter keeps its options and starts with an empty store |
| RateLimit.InMemoryRateLimiter.Check | lib/actions/submitLeadCore.ts:73-80 | the key's list becomes its in-window timestamps plus `now`, even when refused; admitted exactly when that list has at most `maxRequests` entries; other keys are unchanged |
| RateLimit.InMemoryRateLimiter.GetCount | lib/actions/submitLeadCore.ts:82-86 | the count is the number of positions of the key's stored list whose timestamp is still in the window, never more than are stored |
| RateLimit.InMemoryRateLimiter.Reset | lib/actions/submitLeadCore.ts:87-90 | a non-empty key removes that key alone; no key or `""` clears the whole store |
| RateLimit.InMemoryRateLimiter.CheckRun | lib/actions/submitLeadCore.ts:73-80 | checking a fresh key at each of a run of timestamps leaves the fold `Replay` of the run stored, and the j-th verdict is `AdmittedAt` j |
| RateLimit.KeepAfterConcat | lib/actions/submitLeadCore.ts:76 | filtering distributes over concatenation |
| RateLimit.KeepAfterTwice | lib/actions/submitLeadCore.ts:76 | filtering at a cutoff and then at a later one is filtering at the later one |
| RateLimit.KeepAfterAll | lib/actions/submitLeadCore.ts:76 | when every timestamp is after the cutoff, the filter keeps them all |
| RateLimit.RecordThenCount | lib/actions/submitLeadCore.ts:73-86 | counting at the instant of a check sees the whole list the check stored |
| RateLimit.KeepAfterCount | lib/actions/submitLeadCore.ts:85 | the filtered length is the number of positions whose timestamp is after the cutoff |
| RateLimit.ReplayIsTrailingWindow | lib/actions/submitLeadCore.ts:73-80 | after any non-decreasing run of checks, the store holds exactly the checks of the window ending at the last one |
| RateLimit.AdmittedIffWindowCount | lib/actions/submitLeadCore.ts:79 | a check is admitted exactly when at most `maxRequests` checks, counting itself, fall in the window ending at it |
| RateLimit.AtMostMaxPerWindow | lib/actions/submitLeadCore.ts:69-92 | no window of length `windowMs` contains more than `maxRequests` admitted checks |
| RateLimit.WindowExample | lib/actions/submitLeadCore.test.ts:36-44 | on any key and from any start instant t, with 2 per 1000 ms: checks at t and t+500 pass, t+900 is refused, t+2000 passes, and one timestamp then counts |
| WebglBudget.ReportWebglBudget | lib/perf/webglBudget.ts:7-20 | the report echoes the total and the budget (1 200 000 when omitted) and is within budget exactly when the total does not exceed it |
| WebglBudget.BudgetMonotone | lib/perf/webglBudget.ts:11 | a smaller scene or a larger budget never turns a within-budget report into an exceeded one |
| WebglBudget.BudgetDefaultAndBoundary | lib/perf/webglBudget.ts:9-11 | omitting the budget equals passing 1 200 000; a total equal to the budget is within it, one byte more is not |
| SubmitLead.ThanksMessage | app/actions/submitLead.ts:46 | the confirmation starts with "Thanks! We'll be in touch. (" and ends with "ms)", and for a non-negative time the digits between read back as the elapsed milliseconds |
| SubmitLead.TooQuickSince | app/actions/submitLead.ts:31-32 | the guard trips exactly when `t0` is a digit string whose value is finite as a double and less than 800 ms before `now` |
| SubmitLead.TimingGuard | app/actions/submitLead.ts:30-34 | the guard ignores a missing or empty start time, and trips exactly when less than 800 ms have passed since a start time rendered from the clock |
| SubmitLead.LeadAction.constructor | app/actions/submitLead.ts:10 | one limiter for the action, 5 requests per 10 minutes, empty |
| SubmitLead.LeadAction.SubmitLead | app/actions/submitLead.ts:18-52 | an invalid form gets the validator's message; a too-quick one gets "Please take a moment…"; neither touches the limiter; otherwise one check on "anon-session" decides between "Too many requests…" and the confirmation carrying the validator's advisory |
| SubmitLead.GuardStaysPast | app/actions/submitLead.ts:30-34 | a start time that passes the timing guard at one instant passes it at every later instant |
| SubmitLead.BurstOfSubmissions | app/actions/submitLead.ts:10-40 | a valid form, with or without a start time, that passes the timing guard at t and is sent at t, t+1, ..., t+5 ms is accepted five times and refused the sixth; ten minutes later it is accepted again, with the validator's advisory |

## Left out

- The `catch` branch of `submitLead` (app/actions/submitLead.ts:47-51) is unreachable in the model. No modelled stage can throw, because each is a total function here. Its message and its error logging are therefore not modelled.
- SubmitLead.LeadAction.SubmitLead: the clock is read once, as `now`, after the start time `tStart`. The source calls `Date.now()` separately in the timing guard, the rate limiter and the elapsed-time message.
- SubmitLeadCore.ComputeElapsedMsFromT0: only strings of decimal digits are converted. JavaScript's `Number` also accepts signs, surrounding spaces, exponents, hexadecimal and decimal fractions such as `"1.5"` or `".5"`; those give none here, where the source gives a finite result. In the pipeline `t0` has already passed the `^\d+$` check, so this does not change `submitLead`. Rounding to a double below the overflow bound is not modelled either. It only matters above 2^53 ms.
- Decimal.ShowNat: every natural number is rendered as plain decimal digits. JavaScript renders numbers from 10^21 on in exponent notation (`"1e+21"`), so the model matches `String(n)` only below 10^21.
- Decimal.ShowInt: the same bound applies. Elapsed times are integers here, where JavaScript holds them as doubles.
- SubmitLead.ThanksMessage: the digits read back as the elapsed time only for times below 10^21 ms in the source, since it renders larger ones in exponent notation.
- SubmitLeadCore.ToLowerAscii: lower-casing covers `A`–`Z` only. Unicode case mappings such as the Kelvin sign are not modelled.
- SubmitLeadCore.ValidateLead: zod's `.email()` address grammar is the parameter `isEmail`. The schema library itself is not part of this model.
- SubmitLeadCore.ParseFormData: form values are text. `File` values in `FormData` are not modelled.
- WebglBudget.ReportWebglBudget: the development-mode `console.info` line and its MB formatting are output only, and are left out. Totals and budgets are integers, not doubles.
- Email delivery, analytics and the client-side form are outside the server logic modelled here.
