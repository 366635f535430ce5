/** The pure part of the lead-submission core: the free-mail test, the
    projection of a form payload onto a lead, the server-side schema and the
    validator built on it, and the timing guard's elapsed-time computation. */
module SubmitLeadCore {
  import opened Wrappers
  import opened Decimal

  /** A submitted lead. `website` is the honeypot field; `t0` is the client's
      start time in milliseconds, as text. */
  datatype LeadInput = LeadInput(
    name: string,
    email: string,
    company: string,
    whatsapp: Option<string>,
    website: Option<string>,
    t0: Option<string>
  )

  /** What the validator returns: the accepted lead with an optional advisory,
      or a rejection message. */
  datatype Validation =
    | Accepted(data: LeadInput, softWarning: Option<string>)
    | Rejected(message: string)

  const InvalidForm: string := "Invalid form."
  const PersonalEmailWarning: string := "Using a personal email may reduce deliverability."

  // ---------------------------------------------------------------------------
  // isFreeMail
  // ---------------------------------------------------------------------------

  /** The free-mail providers. The source lower-cases each listed name when it
      builds the set; FreeMailIsLowerCase shows that this changes none of them. */
  const FreeMail: set<string> := {
    "gmail.com", "yahoo.com", "hotmail.com", "outlook.com", "icloud.com",
    "aol.com", "proton.me", "protonmail.com", "mail.com", "zoho.com",
    "yandex.com", "live.com", "msn.com", "pm.me"
  }

  function LowerChar(c: char): char {
    if 'A' <= c <= 'Z' then (c as int - 'A' as int + 'a' as int) as char else c
  }

  /** `toLowerCase()` restricted to the ASCII letters. */
  function ToLowerAscii(s: string): (r: string)
    ensures |r| == |s|
    ensures forall i :: 0 <= i < |s| ==> r[i] == LowerChar(s[i])
  {
    seq(|s|, i requires 0 <= i < |s| => LowerChar(s[i]))
  }

  predicate HasNoUpper(s: string) {
    forall i :: 0 <= i < |s| ==> !('A' <= s[i] <= 'Z')
  }

  /** The last element of `s.split("@")`: the longest suffix of `s` without an
      `@`, which is all of `s` when it has no `@`. */
  function AfterLastAt(s: string): (d: string)
    ensures |d| <= |s| && d == s[|s| - |d|..]
    ensures '@' !in d
    ensures |d| < |s| ==> s[|s| - |d| - 1] == '@'
  {
    if s == [] then []
    else if s[|s| - 1] == '@' then []
    else AfterLastAt(s[..|s| - 1]) + [s[|s| - 1]]
  }

  /** No listed domain is empty. */
  lemma NoEmptyDomain()
    ensures "" !in FreeMail
  {
    assert forall d | d in FreeMail :: |d| > 0;
  }

  /** The text after the last `@`, lower-cased, is one of the free-mail
      domains. The source's guard against an empty domain never changes the
      answer, because no listed domain is empty. */
  function IsFreeMail(email: string): (free: bool)
    ensures free <==> ToLowerAscii(AfterLastAt(email)) in FreeMail
    ensures '@' !in email ==> (free <==> ToLowerAscii(email) in FreeMail)
  {
    var domain := ToLowerAscii(AfterLastAt(email));
    NoEmptyDomain();
    assert '@' !in email ==> AfterLastAt(email) == email;
    if domain == "" then false else domain in FreeMail
  }

  /** Lower-casing changes nothing in a string without upper-case letters. */
  lemma ToLowerAsciiOfLower(s: string)
    requires HasNoUpper(s)
    ensures ToLowerAscii(s) == s
  {
    var r := ToLowerAscii(s);
    assert forall i :: 0 <= i < |s| ==> r[i] == s[i];
  }

  /** Lower-casing the listed domains, as the source does when it builds the
      set, leaves each of them as it is. */
  lemma FreeMailIsLowerCase()
    ensures forall d :: d in FreeMail ==> ToLowerAscii(d) == d
  {
    forall d | d in FreeMail ensures ToLowerAscii(d) == d {
      ToLowerAsciiOfLower(d);
    }
  }

  /** The three ensures of AfterLastAt pin the domain down: the domain of
      `local@domain` is `domain` whatever the local part holds. */
  lemma DomainOfAddress(local: string, domain: string)
    requires '@' !in domain
    ensures AfterLastAt(local + "@" + domain) == domain
  {
    var s := local + "@" + domain;
    var d := AfterLastAt(s);
    assert s[|s| - |domain| - 1] == '@';
  }

  /** Whether an address is free mail depends on its domain alone, and on the
      domain only up to the case of its letters. */
  lemma FreeMailByDomain(local: string, domain: string)
    requires '@' !in domain
    ensures IsFreeMail(local + "@" + domain) <==> ToLowerAscii(domain) in FreeMail
  {
    DomainOfAddress(local, domain);
  }

  /** An address that ends in `@` has an empty domain and is never free mail,
      and neither is the empty text. */
  lemma FreeMailEdgeCases(s: string)
    ensures !IsFreeMail(s + "@")
    ensures !IsFreeMail("")
  {
    var t := s + "@";
    assert t[|t| - 1] == '@';
  }

  lemma GmailListed()
    ensures ToLowerAscii("gmail.com") in FreeMail
  {
    ToLowerAsciiOfLower("gmail.com");
  }

  lemma GMailLowered()
    ensures ToLowerAscii("GMail.COM") == "gmail.com"
  {
  }

  lemma CompanyNotListed()
    ensures ToLowerAscii("company.com") !in FreeMail
  {
    ToLowerAsciiOfLower("company.com");
    var c := "company.com";
    assert forall d | d in FreeMail :: |d| != |c| || d[0] != c[0];
  }

  /** The unit tests' free-mail example: every address at gmail.com is free
      mail. */
  lemma FreeMailGmail(local: string)
    ensures IsFreeMail(local + "@" + "gmail.com")
  {
    FreeMailByDomain(local, "gmail.com");
    GmailListed();
  }

  /** The domain's capitalisation does not matter. */
  lemma FreeMailGmailCapitalised(local: string)
    ensures IsFreeMail(local + "@" + "GMail.COM")
  {
    FreeMailByDomain(local, "GMail.COM");
    GMailLowered();
    GmailListed();
  }

  /** The unit tests' company address is not free mail. */
  lemma FreeMailCompany(local: string)
    ensures !IsFreeMail(local + "@" + "company.com")
  {
    FreeMailByDomain(local, "company.com");
    CompanyNotListed();
  }

  // ---------------------------------------------------------------------------
  // parseFormData
  // ---------------------------------------------------------------------------

  /** A form payload: its entries in order; a key may occur more than once. */
  type FormEntries = seq<(string, string)>

  /** Entry `i` has key `k`, and no later entry has. */
  predicate IsLastEntry(entries: FormEntries, k: string, i: int) {
    0 <= i < |entries| && entries[i].0 == k && forall j | i < j < |entries| :: entries[j].0 != k
  }

  /** The value of the last entry with key `k`, if any. */
  function LastValue(entries: FormEntries, k: string): (v: Option<string>)
    ensures v.None? <==> forall i :: 0 <= i < |entries| ==> entries[i].0 != k
  {
    if entries == [] then None
    else if entries[|entries| - 1].0 == k then Some(entries[|entries| - 1].1)
    else LastValue(entries[..|entries| - 1], k)
  }

  /** A value found for `k` is the value of the last entry with key `k`. */
  lemma {:induction false} LastValueIsLastEntry(entries: FormEntries, k: string)
    ensures LastValue(entries, k).Some? ==>
      exists i :: IsLastEntry(entries, k, i) && entries[i].1 == LastValue(entries, k).value
  {
    if entries != [] && entries[|entries| - 1].0 != k {
      var prefix := entries[..|entries| - 1];
      LastValueIsLastEntry(prefix, k);
      if LastValue(prefix, k).Some? {
        var i :| IsLastEntry(prefix, k, i) && prefix[i].1 == LastValue(prefix, k).value;
        assert IsLastEntry(entries, k, i);
      }
    } else if entries != [] {
      assert IsLastEntry(entries, k, |entries| - 1);
    }
  }

  /** `Object.fromEntries`: one property per key, a later entry overwriting an
      earlier one with the same key. */
  function FromEntries(entries: FormEntries): (obj: map<string, string>)
    ensures forall k :: k in obj <==> LastValue(entries, k).Some?
    ensures forall k :: k in obj ==> obj[k] == LastValue(entries, k).value
  {
    if entries == [] then map[]
    else FromEntries(entries[..|entries| - 1])[entries[|entries| - 1].0 := entries[|entries| - 1].1]
  }

  /** `obj[k] || undefined`: a missing or empty value becomes absent. */
  function NonEmptyField(obj: map<string, string>, k: string): Option<string> {
    if k in obj && obj[k] != "" then Some(obj[k]) else None
  }

  /** Projects the payload onto a lead: the three required fields default to
      the empty string, the three optional ones are absent when missing or
      empty. */
  function ParseFormData(data: FormEntries): (input: LeadInput)
    ensures input.name == LastValue(data, "name").GetOr("")
    ensures input.email == LastValue(data, "email").GetOr("")
    ensures input.company == LastValue(data, "company").GetOr("")
    ensures input.whatsapp.None? <==> LastValue(data, "whatsapp") in {None, Some("")}
    ensures input.website.None? <==> LastValue(data, "website") in {None, Some("")}
    ensures input.t0.None? <==> LastValue(data, "t0") in {None, Some("")}
    ensures input.whatsapp.Some? ==> input.whatsapp == LastValue(data, "whatsapp")
    ensures input.website.Some? ==> input.website == LastValue(data, "website")
    ensures input.t0.Some? ==> input.t0 == LastValue(data, "t0")
  {
    var obj := FromEntries(data);
    LeadInput(
      name := if "name" in obj then obj["name"] else "",
      email := if "email" in obj then obj["email"] else "",
      company := if "company" in obj then obj["company"] else "",
      whatsapp := NonEmptyField(obj, "whatsapp"),
      website := NonEmptyField(obj, "website"),
      t0 := NonEmptyField(obj, "t0")
    )
  }

  /** No optional field of a lead is present but empty. */
  predicate NoEmptyOptional(input: LeadInput) {
    && input.whatsapp != Some("")
    && input.website != Some("")
    && input.t0 != Some("")
  }

  function OptionalEntry(k: string, v: Option<string>): FormEntries {
    if v.Some? then [(k, v.value)] else []
  }

  /** The payload a form with these field values posts: the required fields
      always, an optional field only when present. */
  function LeadToEntries(input: LeadInput): FormEntries {
    [("name", input.name), ("email", input.email), ("company", input.company)]
      + OptionalEntry("whatsapp", input.whatsapp)
      + OptionalEntry("website", input.website)
      + OptionalEntry("t0", input.t0)
  }

  lemma LastValueAppend(a: FormEntries, b: FormEntries, k: string)
    ensures LastValue(a + b, k) == if LastValue(b, k).Some? then LastValue(b, k) else LastValue(a, k)
  {
    if b != [] {
      assert (a + b)[..|a + b| - 1] == a + b[..|b| - 1];
      LastValueAppend(a, b[..|b| - 1], k);
    } else {
      assert a + b == a;
    }
  }

  lemma LastValueOfOptional(k: string, v: Option<string>, j: string)
    ensures LastValue(OptionalEntry(k, v), j) == if j == k then v else None
  {
    if v.Some? {
      assert OptionalEntry(k, v)[..0] == [];
    }
  }

  /** Where each key of a posted lead's payload is found. */
  lemma LeadToEntriesLookup(input: LeadInput, k: string)
    ensures LastValue(LeadToEntries(input), k) ==
      if k == "t0" && input.t0.Some? then input.t0
      else if k == "website" && input.website.Some? then input.website
      else if k == "whatsapp" && input.whatsapp.Some? then input.whatsapp
      else LastValue([("name", input.name), ("email", input.email), ("company", input.company)], k)
  {
    var req: FormEntries := [("name", input.name), ("email", input.email), ("company", input.company)];
    var w := OptionalEntry("whatsapp", input.whatsapp);
    var h := OptionalEntry("website", input.website);
    var t := OptionalEntry("t0", input.t0);
    LastValueAppend(req + w + h, t, k);
    LastValueAppend(req + w, h, k);
    LastValueAppend(req, w, k);
    LastValueOfOptional("t0", input.t0, k);
    LastValueOfOptional("website", input.website, k);
    LastValueOfOptional("whatsapp", input.whatsapp, k);
  }

  /** The required fields' entries hold one entry per key. */
  lemma RequiredLookup(name: string, email: string, company: string)
    ensures var req: FormEntries := [("name", name), ("email", email), ("company", company)];
      && LastValue(req, "name") == Some(name)
      && LastValue(req, "email") == Some(email)
      && LastValue(req, "company") == Some(company)
  {
    var req: FormEntries := [("name", name), ("email", email), ("company", company)];
    assert req[..2] == [("name", name), ("email", email)];
    assert req[..2][..1] == [("name", name)];
    assert LastValue(req, "name") == LastValue(req[..2], "name") == LastValue(req[..2][..1], "name");
    assert LastValue(req, "email") == LastValue(req[..2], "email");
  }

  /** A posted lead's payload holds each required field once. */
  lemma RequiredEntries(input: LeadInput)
    ensures LastValue(LeadToEntries(input), "name") == Some(input.name)
    ensures LastValue(LeadToEntries(input), "email") == Some(input.email)
    ensures LastValue(LeadToEntries(input), "company") == Some(input.company)
  {
    RequiredLookup(input.name, input.email, input.company);
    LeadToEntriesLookup(input, "name");
    LeadToEntriesLookup(input, "email");
    LeadToEntriesLookup(input, "company");
  }

  /** A posted lead's payload holds each optional field exactly when present. */
  lemma OptionalEntries(input: LeadInput)
    ensures LastValue(LeadToEntries(input), "whatsapp") == input.whatsapp
    ensures LastValue(LeadToEntries(input), "website") == input.website
    ensures LastValue(LeadToEntries(input), "t0") == input.t0
  {
    RequiredLookup(input.name, input.email, input.company);
    LeadToEntriesLookup(input, "whatsapp");
    LeadToEntriesLookup(input, "website");
    LeadToEntriesLookup(input, "t0");
  }

  /** Parsing a payload whose last value per key is a lead's field gives that
      lead. */
  lemma ParseFromLookups(data: FormEntries, input: LeadInput)
    requires NoEmptyOptional(input)
    requires LastValue(data, "name") == Some(input.name)
    requires LastValue(data, "email") == Some(input.email)
    requires LastValue(data, "company") == Some(input.company)
    requires LastValue(data, "whatsapp") == input.whatsapp
    requires LastValue(data, "website") == input.website
    requires LastValue(data, "t0") == input.t0
    ensures ParseFormData(data) == input
  {
  }

  /** Parsing what a form posts gives back the lead it was filled with. */
  lemma {:induction false} ParseFormDataRoundTrip(input: LeadInput)
    requires NoEmptyOptional(input)
    ensures ParseFormData(LeadToEntries(input)) == input
  {
    RequiredEntries(input);
    OptionalEntries(input);
    ParseFromLookups(LeadToEntries(input), input);
  }

  // ---------------------------------------------------------------------------
  // The server-side schema and validateLead
  // ---------------------------------------------------------------------------

  /** `z.string().min(1)` on a required field. */
  predicate MinLengthOne(s: string) {
    |s| >= 1
  }

  /** `z.string().max(0).optional()`: absent, or of length at most zero. */
  predicate AbsentOrMaxZero(o: Option<string>) {
    o.None? || |o.value| <= 0
  }

  /** `z.string().regex(/^\d+$/).optional()`. */
  predicate AbsentOrDigits(o: Option<string>) {
    o.None? || AllDigits(o.value)
  }

  /** The schema's `safeParse`: the parsed data when every field check passes.
      The address grammar of `.email()` belongs to the schema library and is
      the parameter `isEmail`. */
  function SafeParse(input: LeadInput, isEmail: string -> bool): (parsed: Option<LeadInput>)
    ensures parsed.Some? ==> parsed.value == input
  {
    if && MinLengthOne(input.name)
       && MinLengthOne(input.email) && isEmail(input.email)
       && MinLengthOne(input.company)
       && AbsentOrMaxZero(input.website)
       && AbsentOrDigits(input.t0)
    then Some(input)
    else None
  }

  /** Schema check, then the honeypot, then the free-mail advisory. Every
      rejection carries the same message. */
  function ValidateLead(input: LeadInput, isEmail: string -> bool): (v: Validation)
    ensures v.Rejected? ==> v.message == InvalidForm
    ensures v.Rejected? <==>
      || (input.website.Some? && input.website.value != "")
      || input.name == "" || input.email == "" || input.company == ""
      || !isEmail(input.email)
      || (input.t0.Some? && !AllDigits(input.t0.value))
    ensures v.Accepted? ==> v.data == input
    ensures v.Accepted? ==> (v.softWarning.Some? <==> IsFreeMail(input.email))
    ensures v.Accepted? && v.softWarning.Some? ==> v.softWarning.value == PersonalEmailWarning
  {
    match SafeParse(input, isEmail)
    case None => Rejected(InvalidForm)
    case Some(data) =>
      if data.website.Some? && |data.website.value| > 0 then Rejected(InvalidForm)
      else Accepted(data, if IsFreeMail(data.email) then Some(PersonalEmailWarning) else None)
  }

  /** A lead whose required fields are filled and whose address is at
      gmail.com is accepted, with the personal-email advisory. */
  lemma ValidateWarnsOnFreeMail(name: string, local: string, company: string, isEmail: string -> bool)
    requires name != "" && company != "" && isEmail(local + "@" + "gmail.com")
    ensures var input := LeadInput(name, local + "@" + "gmail.com", company, None, None, None);
      ValidateLead(input, isEmail) == Accepted(input, Some(PersonalEmailWarning))
  {
    FreeMailGmail(local);
  }

  // ---------------------------------------------------------------------------
  // computeElapsedMsFromT0
  // ---------------------------------------------------------------------------

  /** The smallest value a decimal string can denote that IEEE 754 double
      precision, rounding to nearest, turns into Infinity: 2^1024 - 2^970. */
  const NumberOverflow: nat := 179769313486231580793728971405303415079934132710037826936173778980444968292764750946649017977587207096330286416692887910946555547851940402630657488671505820681908902000708383676273854845817711531764475730270069855571366959622842914819860834936475292719074168444365510704342711559699508093042880177904174497792

  /** Milliseconds since the client's start time, or None when `t0` is
      missing, empty or does not convert to a finite number. */
  function ComputeElapsedMsFromT0(t0: Option<string>, now: int): (elapsed: Option<int>)
    ensures t0 == None || t0 == Some("") ==> elapsed == None
    ensures elapsed.Some? ==>
      && t0.Some? && AllDigits(t0.value)
      && ParseNat(t0.value) < NumberOverflow
      && elapsed.value == now - ParseNat(t0.value)
    ensures t0.Some? && AllDigits(t0.value) && ParseNat(t0.value) < NumberOverflow ==> elapsed.Some?
  {
    if t0.None? || t0.value == "" then None
    else if !AllDigits(t0.value) then None
    else
      var start := ParseNat(t0.value);
      if start >= NumberOverflow then None else Some(now - start)
  }

  /** A start time rendered `ago` milliseconds before `now` gives back `ago`;
      so a start time in the past gives a non-negative elapsed time. */
  lemma ElapsedFromPastStart(now: nat, ago: nat)
    requires ago <= now < NumberOverflow
    ensures ComputeElapsedMsFromT0(Some(ShowNat(now - ago)), now) == Some(ago)
  {
    ParseShowNat(now - ago);
  }
}
