/**
 * The contact and application form: the flag shown for a country code, the
 * priority-first country list, the defaults each mode starts from, the
 * schema's length and enum rules, and the payload built on submit.
 *
 * The phone library's data (`getCountries()` and `getCountryCallingCode`)
 * enters as parameters: the country list as a sequence, the calling codes as
 * a map whose missing keys are the lookups that throw. Email syntax enters as
 * a predicate `isEmail`.
 */
module Form {
  import opened Wrappers

  // ---------------------------------------------------------------------------
  // Strings as JavaScript sees them

  /** The UTF-16 code units of one character (a surrogate pair above U+FFFF). */
  function Utf16Units(c: char): (units: seq<nat>)
    ensures forall k :: 0 <= k < |units| ==> units[k] < 0x1_0000
    ensures |units| == (if c as int < 0x1_0000 then 1 else 2)
  {
    var v := c as int;
    if v < 0x1_0000 then [v]
    else [0xD800 + (v - 0x1_0000) / 0x400, 0xDC00 + (v - 0x1_0000) % 0x400]
  }

  /** The UTF-16 code units of a string: what `split("")`, `charCodeAt` and `length` work on. */
  function Utf16(s: string): (units: seq<nat>)
    ensures forall k :: 0 <= k < |units| ==> units[k] < 0x1_0000
    ensures |s| <= |units|
  {
    if s == [] then [] else Utf16Units(s[0]) + Utf16(s[1..])
  }

  predicate InBmp(s: string) {
    forall k :: 0 <= k < |s| ==> s[k] as int < 0x1_0000
  }

  /** Below U+10000 every character is one code unit, its own code. */
  lemma {:induction false} Utf16OfBmp(s: string)
    requires InBmp(s)
    ensures |Utf16(s)| == |s|
    ensures forall k :: 0 <= k < |s| ==> Utf16(s)[k] == s[k] as int
  {
    if s != [] {
      Utf16OfBmp(s[1..]);
      assert Utf16(s) == [s[0] as int] + Utf16(s[1..]);
    }
  }

  predicate IsLower(c: char) {
    'a' <= c <= 'z'
  }

  predicate IsUpper(c: char) {
    'A' <= c <= 'Z'
  }

  predicate IsLetter(c: char) {
    IsLower(c) || IsUpper(c)
  }

  predicate AllLetters(s: string) {
    forall k :: 0 <= k < |s| ==> IsLetter(s[k])
  }

  /** `toUpperCase` on one character, for the Latin letters a-z. */
  function UpperChar(c: char): (u: char)
    ensures IsLetter(c) ==> IsUpper(u)
    ensures IsUpper(u) ==> IsLetter(c)
    ensures !IsLower(c) ==> u == c
  {
    if IsLower(c) then (c as int - 32) as char else c
  }

  function ToUpper(s: string): (u: string)
    ensures |u| == |s|
    ensures forall k :: 0 <= k < |s| ==> u[k] == UpperChar(s[k])
  {
    seq(|s|, k requires 0 <= k < |s| => UpperChar(s[k]))
  }

  // ---------------------------------------------------------------------------
  // getFlagEmoji

  /** 127397 = 0x1F1E6 - 'A': the distance from a letter to its regional indicator symbol. */
  const RegionalOffset: nat := 127397
  const FirstIndicator: nat := 0x1_F1E6
  const LastIndicator: nat := 0x1_F1FF

  /**
   * getFlagEmoji: "" stays ""; otherwise every UTF-16 unit of the upper-cased
   * code becomes the code point 127397 above it.
   */
  function FlagEmoji(code: string): (flag: string)
    ensures code == "" ==> flag == ""
    ensures |flag| == |Utf16(ToUpper(code))|
  {
    if code == "" then ""
    else
      var units := Utf16(ToUpper(code));
      seq(|units|, k requires 0 <= k < |units| => (RegionalOffset + units[k]) as char)
  }

  /**
   * For a code of Latin letters, the flag has one code point per letter,
   * 127397 above its upper-case form, and so in U+1F1E6..U+1F1FF.
   */
  lemma FlagOfLetters(code: string)
    requires AllLetters(code)
    ensures var flag := FlagEmoji(code);
            && |flag| == |code|
            && forall k :: 0 <= k < |code| ==>
                 && flag[k] as int == RegionalOffset + UpperChar(code[k]) as int
                 && FirstIndicator <= flag[k] as int <= LastIndicator
  {
    Utf16OfBmp(ToUpper(code));
  }

  predicate IsIndicator(c: char) {
    FirstIndicator <= c as int <= LastIndicator
  }

  /** Reading a flag back: each regional indicator symbol gives its letter; anything else fails. */
  function FlagLetters(flag: string): (letters: Option<string>)
    ensures letters.Some? ==> |letters.value| == |flag|
  {
    if flag == [] then Some("")
    else if !IsIndicator(flag[0]) then None
    else match FlagLetters(flag[1..])
      case None => None
      case Some(rest) => Some([(flag[0] as int - RegionalOffset) as char] + rest)
  }

  /** The flag of a code of Latin letters reads back as the upper-cased code. */
  lemma FlagRoundTrip(code: string)
    requires AllLetters(code)
    ensures FlagLetters(FlagEmoji(code)) == Some(ToUpper(code))
  {
    var u := ToUpper(code);
    Utf16OfBmp(u);
    IndicatorsReadBack(u, FlagEmoji(code));
  }

  lemma {:induction false} IndicatorsReadBack(u: string, flag: string)
    requires forall k :: 0 <= k < |u| ==> IsUpper(u[k])
    requires |flag| == |u|
    requires forall k :: 0 <= k < |u| ==> flag[k] as int == RegionalOffset + u[k] as int
    ensures FlagLetters(flag) == Some(u)
  {
    if u != [] {
      IndicatorsReadBack(u[1..], flag[1..]);
      assert u == [u[0]] + u[1..];
    }
  }

  // ---------------------------------------------------------------------------
  // CountrySelect

  predicate NoDuplicates<T(==)>(s: seq<T>) {
    forall i, j :: 0 <= i < j < |s| ==> s[i] != s[j]
  }

  /** `countries.filter((c) => !priorityCountries.includes(c))`. */
  function Without(countries: seq<string>, priority: seq<string>): (others: seq<string>)
    ensures forall c :: c in others <==> c in countries && c !in priority
    decreases |countries|
  {
    if countries == [] then []
    else
      var rest := Without(countries[1..], priority);
      if countries[0] in priority then rest else [countries[0]] + rest
  }

  /** The kept elements: the countries that are in the priority list, in list order. */
  function Keep(countries: seq<string>, priority: seq<string>): (kept: seq<string>)
    ensures forall c :: c in kept <==> c in countries && c in priority
    decreases |countries|
  {
    if countries == [] then []
    else
      var rest := Keep(countries[1..], priority);
      if countries[0] in priority then [countries[0]] + rest else rest
  }

  /** `a` is `b` with some elements dropped and the rest in their order. */
  ghost predicate Subsequence<T>(a: seq<T>, b: seq<T>)
    decreases |b|
  {
    if a == [] then true
    else if b == [] then false
    else (a[0] == b[0] && Subsequence(a[1..], b[1..])) || Subsequence(a, b[1..])
  }

  /** The filter keeps the countries in their original order. */
  lemma {:induction false} WithoutIsSubsequence(countries: seq<string>, priority: seq<string>)
    ensures Subsequence(Without(countries, priority), countries)
    decreases |countries|
  {
    if countries != [] {
      WithoutIsSubsequence(countries[1..], priority);
    }
  }

  /** `[...priorityCountries, ...otherCountries]`. */
  function SortedCountries(countries: seq<string>, priority: seq<string>): seq<string> {
    priority + Without(countries, priority)
  }

  /**
   * The list starts with the priority countries, then the library's list in
   * its order with every priority country removed; it names every country of
   * either list and nothing else.
   */
  lemma SortedCountriesShape(countries: seq<string>, priority: seq<string>)
    ensures var sorted := SortedCountries(countries, priority);
            && sorted[..|priority|] == priority
            && Subsequence(sorted[|priority|..], countries)
            && (forall c :: c in sorted[|priority|..] ==> c !in priority)
            && (forall c :: c in sorted <==> c in priority || c in countries)
  {
    var sorted := SortedCountries(countries, priority);
    assert sorted[|priority|..] == Without(countries, priority);
    WithoutIsSubsequence(countries, priority);
  }

  lemma {:induction false} SplitByPriority(countries: seq<string>, priority: seq<string>)
    ensures multiset(Without(countries, priority)) + multiset(Keep(countries, priority)) == multiset(countries)
    decreases |countries|
  {
    if countries != [] {
      SplitByPriority(countries[1..], priority);
      assert countries == [countries[0]] + countries[1..];
    }
  }

  lemma {:induction false} KeepNoDuplicates(countries: seq<string>, priority: seq<string>)
    requires NoDuplicates(countries)
    ensures NoDuplicates(Keep(countries, priority))
    decreases |countries|
  {
    if countries != [] {
      KeepNoDuplicates(countries[1..], priority);
      assert countries[0] !in countries[1..] by {
        forall k | 0 <= k < |countries[1..]| ensures countries[1..][k] != countries[0] {
          assert countries[1..][k] == countries[k + 1];
        }
      }
    }
  }

  /** Without duplicates, each element occurs exactly once. */
  lemma {:induction false} OnceEach<T>(s: seq<T>, x: T)
    requires NoDuplicates(s)
    ensures multiset(s)[x] == if x in s then 1 else 0
    decreases |s|
  {
    if s != [] {
      OnceEach(s[1..], x);
      assert s == [s[0]] + s[1..];
      if x == s[0] {
        assert x !in s[1..] by {
          forall k | 0 <= k < |s[1..]| ensures s[1..][k] != x {
            assert s[1..][k] == s[k + 1];
          }
        }
      }
    }
  }

  /**
   * When every priority country is in a list without duplicates, and the
   * priority list has none either, the sorted list is a reordering of the
   * library's list.
   */
  lemma SortedCountriesPermutes(countries: seq<string>, priority: seq<string>)
    requires NoDuplicates(countries) && NoDuplicates(priority)
    requires forall c :: c in priority ==> c in countries
    ensures multiset(SortedCountries(countries, priority)) == multiset(countries)
  {
    var kept := Keep(countries, priority);
    KeepNoDuplicates(countries, priority);
    forall x
      ensures multiset(kept)[x] == multiset(priority)[x]
    {
      OnceEach(kept, x);
      OnceEach(priority, x);
    }
    assert multiset(kept) == multiset(priority);
    SplitByPriority(countries, priority);
  }

  /** `value || priorityCountries[0]` (None where that is undefined). */
  function SelectedCountry(value: string, priority: seq<string>): (selected: Option<string>)
    ensures selected.Some? <==> value != "" || priority != []
  {
    if value != "" then Some(value)
    else if priority != [] then Some(priority[0])
    else None
  }

  /**
   * The selection is the chosen value when there is one and the first
   * priority country otherwise; either way it is an entry of the sorted list
   * when the value is one of the library's countries.
   */
  lemma SelectedIsListed(value: string, countries: seq<string>, priority: seq<string>)
    requires value == "" || value in countries
    requires priority != []
    ensures var selected := SelectedCountry(value, priority);
            && selected.Some?
            && (value != "" ==> selected.value == value)
            && (value == "" ==> selected.value == priority[0])
            && selected.value in SortedCountries(countries, priority)
  {
    SortedCountriesShape(countries, priority);
  }

  // ---------------------------------------------------------------------------
  // Modes and default values

  datatype Mode = Job | Enquiry

  const Modes: seq<string> := ["job", "enquiry"]
  const EnquiryTypes: seq<string> := ["money", "idea", "general"]

  function ModeName(mode: Mode): (name: string)
    ensures name in Modes
  {
    match mode
    case Job => "job"
    case Enquiry => "enquiry"
  }

  function DefaultCountry(mode: Mode): string {
    if mode == Enquiry then "US" else "IN"
  }

  function PriorityCountries(mode: Mode): seq<string> {
    if mode == Enquiry then ["US", "IN"] else ["IN", "US"]
  }

  /**
   * An enquiry starts from the United States and a job application from
   * India; the default country heads the priority list, which is the two of
   * them either way, and it is what the select shows before a choice.
   */
  lemma ModeDefaults(mode: Mode)
    ensures DefaultCountry(mode) == (if mode == Enquiry then "US" else "IN")
    ensures var priority := PriorityCountries(mode);
            && |priority| == 2 && NoDuplicates(priority)
            && priority[0] == DefaultCountry(mode)
            && multiset(priority) == multiset{"US", "IN"}
            && SelectedCountry("", priority) == Some(DefaultCountry(mode))
  {
    var priority := PriorityCountries(mode);
    assert priority == [priority[0]] + [priority[1]];
  }

  /** The files behind a file input, as opaque handles. */
  datatype File = File(handle: nat)

  /**
   * The form's values: `None` for an optional field that is absent
   * (undefined); `resume` holds the chosen files.
   */
  datatype FormValues = FormValues(
    mode: string,
    name: string,
    email: string,
    country: string,
    mobile: Option<string>,
    role: Option<string>,
    portfolio: Option<string>,
    resume: Option<seq<File>>,
    cover: Option<string>,
    enquiryType: Option<string>,
    message: Option<string>)

  /** `x || fallback` for an optional string: "" and undefined both fall through. */
  function OrElse(x: Option<string>, fallback: Option<string>): (r: Option<string>)
    ensures x.Some? && x.value != "" ==> r == x
    ensures x.None? || x.value == "" ==> r == fallback
  {
    if x.Some? && x.value != "" then x else fallback
  }

  function InterestMessage(service: string): string {
    "I am interested in " + service + "..."
  }

  /**
   * defaultValues: empty text fields, the mode's country, the role and
   * enquiry type passed in (an enquiry type of "general" when the type
   * select is hidden), and a message naming the service when there is one.
   */
  function DefaultValues(mode: Mode, defaultRole: Option<string>, defaultService: Option<string>,
                         defaultEnquiryType: Option<string>, hideEnquiryType: bool): (d: FormValues)
    ensures d.mode == ModeName(mode) && d.country == DefaultCountry(mode)
    ensures d.name == "" && d.email == "" && d.resume.None?
    ensures d.mobile == Some("") && d.portfolio == Some("") && d.cover == Some("")
    ensures d.role.Some? && (d.role.value != "" <==> defaultRole.Some? && defaultRole.value != "")
    ensures d.role.value != "" ==> d.role == defaultRole
    ensures d.enquiryType.Some? <==> (defaultEnquiryType.Some? && defaultEnquiryType.value != "") || hideEnquiryType
    ensures defaultEnquiryType.Some? && defaultEnquiryType.value != "" ==> d.enquiryType == defaultEnquiryType
    ensures (defaultEnquiryType.None? || defaultEnquiryType.value == "") && hideEnquiryType ==> d.enquiryType == Some("general")
    ensures d.message.Some?
    ensures d.message.value != "" <==> defaultService.Some? && defaultService.value != ""
    ensures d.message.value != "" ==> d.message.value == InterestMessage(defaultService.value)
  {
    FormValues(
      mode := ModeName(mode),
      name := "",
      email := "",
      country := DefaultCountry(mode),
      mobile := Some(""),
      role := OrElse(defaultRole, Some("")),
      portfolio := Some(""),
      resume := None,
      cover := Some(""),
      enquiryType := OrElse(defaultEnquiryType, if hideEnquiryType then Some("general") else None),
      message := Some(if defaultService.Some? && defaultService.value != "" then InterestMessage(defaultService.value) else ""))
  }

  // ---------------------------------------------------------------------------
  // formSchema

  /** The checks that can fail, in the schema's field order. */
  datatype Issue = InvalidMode | ShortName | InvalidEmail | MissingCountry | InvalidEnquiryType

  /** The messages the schema sets; the enum checks keep the library's own. */
  function IssueMessage(issue: Issue): (m: Option<string>)
    ensures m.Some? <==> issue != InvalidMode && issue != InvalidEnquiryType
  {
    match issue
    case ShortName => Some("Name must be at least 2 characters.")
    case InvalidEmail => Some("Please enter a valid email address.")
    case MissingCountry => Some("Please select a country.")
    case _ => None
  }

  /** The schema's own messages for `issues`, in order. */
  function CustomMessages(issues: seq<Issue>): (ms: seq<string>)
    ensures |ms| <= |issues|
  {
    if issues == [] then []
    else
      var m := IssueMessage(issues[0]);
      (if m.Some? then [m.value] else []) + CustomMessages(issues[1..])
  }

  /** A custom message is shown exactly when the issue it belongs to is reported. */
  lemma {:induction false} CustomMessageShown(issues: seq<Issue>, issue: Issue)
    requires IssueMessage(issue).Some?
    ensures IssueMessage(issue).value in CustomMessages(issues) <==> issue in issues
  {
    if issues != [] {
      CustomMessageShown(issues[1..], issue);
      assert issues == [issues[0]] + issues[1..];
    }
  }

  function Check(ok: bool, issue: Issue): seq<Issue> {
    if ok then [] else [issue]
  }

  /**
   * Every check of formSchema that `d` fails, in field order; lengths are
   * counted in UTF-16 units as JavaScript's `length` counts them.
   */
  function Issues(d: FormValues, isEmail: string -> bool): seq<Issue> {
    Check(d.mode in Modes, InvalidMode)
    + Check(|Utf16(d.name)| >= 2, ShortName)
    + Check(isEmail(d.email), InvalidEmail)
    + Check(|Utf16(d.country)| >= 1, MissingCountry)
    + Check(d.enquiryType.None? || d.enquiryType.value in EnquiryTypes, InvalidEnquiryType)
  }

  /** When `d` breaks the rule behind `issue`, stated field by field. */
  predicate Breaks(d: FormValues, isEmail: string -> bool, issue: Issue) {
    match issue
    case InvalidMode => d.mode != "job" && d.mode != "enquiry"
    case ShortName => |Utf16(d.name)| < 2
    case InvalidEmail => !isEmail(d.email)
    case MissingCountry => d.country == ""
    case InvalidEnquiryType =>
      d.enquiryType.Some? && d.enquiryType.value != "money" && d.enquiryType.value != "idea" && d.enquiryType.value != "general"
  }

  /** An issue is reported exactly when its rule is broken, so a form passes exactly when it breaks none. */
  lemma IssuesReportEachRule(d: FormValues, isEmail: string -> bool)
    ensures forall issue :: issue in Issues(d, isEmail) <==> Breaks(d, isEmail, issue)
    ensures Issues(d, isEmail) == [] <==> forall issue :: !Breaks(d, isEmail, issue)
  {
    var c0, c1, c2 := Check(d.mode in Modes, InvalidMode), Check(|Utf16(d.name)| >= 2, ShortName), Check(isEmail(d.email), InvalidEmail);
    var c3 := Check(|Utf16(d.country)| >= 1, MissingCountry);
    var c4 := Check(d.enquiryType.None? || d.enquiryType.value in EnquiryTypes, InvalidEnquiryType);
    assert |Utf16(d.country)| >= 1 <==> d.country != "" by {
      if d.country != "" {
        assert |Utf16(d.country)| >= |d.country|;
      }
    }
    forall issue
      ensures issue in Issues(d, isEmail) <==> Breaks(d, isEmail, issue)
    {
      InConcat(issue, c0, c1, c2, c3, c4);
    }
    if Issues(d, isEmail) != [] {
      assert Issues(d, isEmail)[0] in Issues(d, isEmail);
    }
  }

  /**
   * The form shows "Name must be at least 2 characters." exactly when the
   * name is too short, "Please enter a valid email address." exactly when the
   * email is not one, and "Please select a country." exactly when the country
   * is empty.
   */
  lemma CustomMessagesReportRules(d: FormValues, isEmail: string -> bool)
    ensures var ms := CustomMessages(Issues(d, isEmail));
            && ("Name must be at least 2 characters." in ms <==> |Utf16(d.name)| < 2)
            && ("Please enter a valid email address." in ms <==> !isEmail(d.email))
            && ("Please select a country." in ms <==> d.country == "")
  {
    IssuesReportEachRule(d, isEmail);
    CustomMessageShown(Issues(d, isEmail), ShortName);
    CustomMessageShown(Issues(d, isEmail), InvalidEmail);
    CustomMessageShown(Issues(d, isEmail), MissingCountry);
  }

  lemma InConcat<T>(x: T, a: seq<T>, b: seq<T>, c: seq<T>, d: seq<T>, e: seq<T>)
    ensures x in a + b + c + d + e <==> x in a || x in b || x in c || x in d || x in e
  {
  }

  /**
   * The defaults satisfy the mode, country and enquiry-type rules, so a fresh
   * form is held back only by its empty name and, unless "" counts as an
   * email, its empty email.
   */
  lemma DefaultsNeedNameAndEmail(mode: Mode, defaultRole: Option<string>, defaultService: Option<string>,
                                 defaultEnquiryType: Option<string>, hideEnquiryType: bool, isEmail: string -> bool)
    requires defaultEnquiryType.Some? ==> defaultEnquiryType.value in EnquiryTypes
    ensures Issues(DefaultValues(mode, defaultRole, defaultService, defaultEnquiryType, hideEnquiryType), isEmail)
            == [ShortName] + (if isEmail("") then [] else [InvalidEmail])
  {
    var d := DefaultValues(mode, defaultRole, defaultService, defaultEnquiryType, hideEnquiryType);
    assert Utf16(d.name) == [];
    assert |Utf16(d.country)| >= 1;
  }

  /** Filling in a name of two or more units and a valid email makes the defaults pass. */
  lemma FilledDefaultsPass(mode: Mode, defaultRole: Option<string>, defaultService: Option<string>,
                           defaultEnquiryType: Option<string>, hideEnquiryType: bool,
                           name: string, email: string, isEmail: string -> bool)
    requires defaultEnquiryType.Some? ==> defaultEnquiryType.value in EnquiryTypes
    requires |Utf16(name)| >= 2 && isEmail(email)
    ensures Issues(DefaultValues(mode, defaultRole, defaultService, defaultEnquiryType, hideEnquiryType)
                     .(name := name, email := email), isEmail) == []
  {
    var d := DefaultValues(mode, defaultRole, defaultService, defaultEnquiryType, hideEnquiryType);
    assert |Utf16(d.country)| >= 1;
  }

  // ---------------------------------------------------------------------------
  // onSubmit

  /** A payload entry: text, the list of chosen files, or a single file. */
  datatype Value = Text(text: string) | Files(files: seq<File>) | Upload(file: File)

  /** The entry `{ ...data }` has under key `k`, if any. */
  function Field(d: FormValues, k: string): Option<Value> {
    if k == "mode" then Some(Text(d.mode))
    else if k == "name" then Some(Text(d.name))
    else if k == "email" then Some(Text(d.email))
    else if k == "country" then Some(Text(d.country))
    else if k == "mobile" then Lift(d.mobile)
    else if k == "role" then Lift(d.role)
    else if k == "portfolio" then Lift(d.portfolio)
    else if k == "resume" then (if d.resume.Some? then Some(Files(d.resume.value)) else None)
    else if k == "cover" then Lift(d.cover)
    else if k == "enquiry_type" then Lift(d.enquiryType)
    else if k == "message" then Lift(d.message)
    else None
  }

  function Lift(o: Option<string>): Option<Value> {
    if o.Some? then Some(Text(o.value)) else None
  }

  const FieldNames: set<string> :=
    {"mode", "name", "email", "country", "mobile", "role", "portfolio", "resume", "cover", "enquiry_type", "message"}

  /** `{ ...data }`: one entry per present field. */
  function Entries(d: FormValues): (m: map<string, Value>)
    ensures forall k :: Lookup(m, k) == Field(d, k)
  {
    map k | k in FieldNames && Field(d, k).Some? :: Field(d, k).value
  }

  function Lookup(m: map<string, Value>, k: string): Option<Value> {
    if k in m then Some(m[k]) else None
  }

  /** `${data.mobile}`: an absent mobile prints as "undefined". */
  function Shown(o: Option<string>): string {
    if o.Some? then o.value else "undefined"
  }

  /**
   * onSubmit: copy the data; prefix the mobile with "+<calling code> " when
   * the country's calling code is known (a lookup that throws leaves it as it
   * was); in job mode send only the first of a non-empty list of resume
   * files.
   */
  method OnSubmit(mode: Mode, data: FormValues, callingCodes: map<string, string>) returns (payload: map<string, Value>)
    ensures forall k :: k != "mobile" && k != "resume" ==> Lookup(payload, k) == Field(data, k)
    ensures data.country in callingCodes ==>
              Lookup(payload, "mobile") == Some(Text("+" + callingCodes[data.country] + " " + Shown(data.mobile)))
    ensures data.country !in callingCodes ==> Lookup(payload, "mobile") == Field(data, "mobile")
    ensures mode == Job && data.resume.Some? && data.resume.value != [] ==>
              Lookup(payload, "resume") == Some(Upload(data.resume.value[0]))
    ensures !(mode == Job && data.resume.Some? && data.resume.value != []) ==>
              Lookup(payload, "resume") == Field(data, "resume")
  {
    payload := Entries(data);
    if data.country in callingCodes {
      payload := payload["mobile" := Text("+" + callingCodes[data.country] + " " + Shown(data.mobile))];
    }
    if mode == Job && data.resume.Some? && |data.resume.value| > 0 {
      payload := payload["resume" := Upload(data.resume.value[0])];
    }
  }
}
