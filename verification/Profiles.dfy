/** Saved connection profiles, their drafts, and the canonical form validation gives them. */
module Profiles {
  import opened Relations
  import opened Decimals
  import opened StringOrder

  datatype Profile = Profile(
    id: string, name: string, host: string, port: nat, database: string, user: string, sslMode: string,
    parameters: map<string, string>, savePassword: bool,
    createdAt: nat, updatedAt: nat, lastUsedAt: nat, unknown: set<string>)

  datatype Document = Document(version: int, profiles: seq<Profile>, unknown: set<string>)

  datatype Parameter = Parameter(name: string, value: string)

  datatype Draft = Draft(
    id: string, name: string, host: string, port: string, database: string, user: string, password: string,
    replacePassword: bool, savePassword: bool, sslMode: string, parameters: seq<Parameter>)

  datatype Field = NameField | HostField | DatabaseField | UserField | PasswordField | PortField | SslModeField
    | AdvancedFields | AdvancedField(index: nat)

  datatype Problem = IsRequired | HasControl | TooLong | ManyHosts | HasSpace | OutOfRange | UnknownMode | NotUnique
    | TooMany | IsReserved | IsSecret | BadCharacters | Repeated

  datatype FieldError = FieldError(field: Field, problem: Problem)

  /** The Unicode tables and the byte length, as the standard library has them. */
  datatype Text = Text(
    space: char -> bool, control: char -> bool, nameChar: char -> bool, lower: char -> char, fold: char -> char,
    bytes: string -> nat)

  /** Lower-casing twice is lower-casing once and never makes or removes a space; digits are not spaces. */
  ghost predicate Sane(t: Text) {
    (forall c :: t.lower(t.lower(c)) == t.lower(c)) && (forall c :: t.space(t.lower(c)) == t.space(c)) &&
    forall c :: IsDigit(c) ==> !t.space(c)
  }

  // ----- strings -----

  function TrimLeft(t: Text, s: string): string {
    if s != [] && t.space(s[0]) then TrimLeft(t, s[1..]) else s
  }

  function TrimRight(t: Text, s: string): string {
    if s != [] && t.space(s[|s| - 1]) then TrimRight(t, s[..|s| - 1]) else s
  }

  function Trim(t: Text, s: string): string { TrimRight(t, TrimLeft(t, s)) }

  function Lower(t: Text, s: string): (r: string)
    ensures |r| == |s|
  {
    seq(|s|, i requires 0 <= i < |s| => t.lower(s[i]))
  }

  predicate Any(p: char -> bool, s: string) { exists i :: 0 <= i < |s| && p(s[i]) }

  predicate FoldEqual(t: Text, a: string, b: string) {
    |a| == |b| && forall i :: 0 <= i < |a| ==> t.fold(a[i]) == t.fold(b[i])
  }

  predicate Contains(s: string, part: string) {
    part <= s || (s != [] && Contains(s[1..], part))
  }

  // ----- fields -----

  const SSL_MODES := {"disable", "allow", "prefer", "require", "verify-ca", "verify-full"}

  const RESERVED := {"dbname", "database", "connect_timeout", "host", "password", "passfile", "port", "sslmode",
                     "sslpassword", "user"}

  function When(condition: bool, field: Field, problem: Problem): seq<FieldError> {
    if condition then [FieldError(field, problem)] else []
  }

  /** Checks shared by the name, the database and the user. */
  function TextErrors(t: Text, field: Field, value: string, limit: nat): seq<FieldError> {
    When(value == "", field, IsRequired) + When(Any(t.control, value), field, HasControl) +
    When(|value| > limit, field, TooLong)
  }

  function HostErrors(t: Text, host: string): seq<FieldError> {
    When(host == "", HostField, IsRequired) + When(',' in host, HostField, ManyHosts) +
    When(Any(t.space, host), HostField, HasSpace) + When(Any(t.control, host), HostField, HasControl) +
    When(|host| > 1024, HostField, TooLong)
  }

  function ParsePort(t: Text, s: string): Option<nat> {
    var digits := Trim(t, s);
    if digits == "" || !AllDigits(digits) || DecimalValue(digits) > 65535 then None else Some(DecimalValue(digits))
  }

  predicate BadPort(t: Text, s: string) { ParsePort(t, s).None? || ParsePort(t, s).value == 0 }

  predicate NameTaken(t: Text, profiles: seq<Profile>, id: string, name: string) {
    exists i :: 0 <= i < |profiles| && profiles[i].id != id && FoldEqual(t, Trim(t, profiles[i].name), name)
  }

  // ----- parameters -----

  function ParameterName(t: Text, p: Parameter): string { Lower(t, Trim(t, p.name)) }

  function ParameterProblem(t: Text, name: string, value: string): Option<Problem> {
    var lowerValue := Lower(t, value);
    if name == "" then Some(IsRequired)
    else if name in RESERVED then Some(IsReserved)
    else if Contains(name, "password") || Contains(name, "passfile") || Contains(name, "secret") ||
            Contains(lowerValue, "password=") || Contains(lowerValue, "passfile=") then Some(IsSecret)
    else if Any(c => !t.nameChar(c) && c !in "._-", name) then Some(BadCharacters)
    else if |name| > 128 then Some(TooLong)
    else if Any(t.control, value) then Some(HasControl)
    else if t.bytes(value) > 8192 then Some(TooLong)
    else None
  }

  /** What is collected from the first `n` parameters: errors, and values by canonical name. */
  datatype Scan = Scan(errors: seq<FieldError>, values: map<string, string>)

  function ScanNext(t: Text, before: Scan, p: Parameter, index: nat): Scan {
    var name := ParameterName(t, p);
    var problem := ParameterProblem(t, name, p.value);
    if problem.Some? then before.(errors := before.errors + [FieldError(AdvancedField(index), problem.value)])
    else if name in before.values then before.(errors := before.errors + [FieldError(AdvancedField(index), Repeated)])
    else before.(values := before.values[name := p.value])
  }

  type Collector = (Scan, Parameter, nat) -> Scan

  function CollectorOf(t: Text): Collector {
    (before: Scan, p: Parameter, index: nat) => ScanNext(t, before, p, index)
  }

  function ScanWith(next: Collector, parameters: seq<Parameter>, n: nat): Scan
    requires n <= |parameters|
  {
    if n == 0 then Scan([], map[]) else next(ScanWith(next, parameters, n - 1), parameters[n - 1], n - 1)
  }

  function ScanParameters(t: Text, parameters: seq<Parameter>, n: nat): Scan
    requires n <= |parameters|
  {
    ScanWith(CollectorOf(t), parameters, n)
  }

  // ----- the whole draft -----

  function FieldErrors(t: Text, draft: Draft): seq<FieldError> {
    TextErrors(t, NameField, Trim(t, draft.name), 256) + HostErrors(t, Trim(t, draft.host)) +
    TextErrors(t, DatabaseField, Trim(t, draft.database), 256) + TextErrors(t, UserField, Trim(t, draft.user), 256) +
    When(draft.replacePassword && t.bytes(draft.password) > 4096, PasswordField, TooLong) +
    When(BadPort(t, draft.port), PortField, OutOfRange) +
    When(Lower(t, Trim(t, draft.sslMode)) !in SSL_MODES, SslModeField, UnknownMode)
  }

  function DraftErrors(t: Text, draft: Draft, profiles: seq<Profile>): seq<FieldError> {
    FieldErrors(t, draft) + When(NameTaken(t, profiles, draft.id, Trim(t, draft.name)), NameField, NotUnique) +
    When(|draft.parameters| > 64, AdvancedFields, TooMany) +
      ScanParameters(t, draft.parameters, |draft.parameters|).errors
  }

  /** The canonical profile of an acceptable draft. */
  function Canonical(t: Text, draft: Draft): Profile {
    Profile(draft.id, Trim(t, draft.name), Trim(t, draft.host),
            if ParsePort(t, draft.port).Some? then ParsePort(t, draft.port).value else 0,
            Trim(t, draft.database), Trim(t, draft.user), Lower(t, Trim(t, draft.sslMode)),
            ScanParameters(t, draft.parameters, |draft.parameters|).values, draft.savePassword, 0, 0, 0, {})
  }

  function Validated(t: Text, draft: Draft, profiles: seq<Profile>): Result<Profile, seq<FieldError>> {
    var errors := DraftErrors(t, draft, profiles);
    if errors != [] then Failure(errors) else Success(Canonical(t, draft))
  }

  method CollectParameters(
    t: Text, parameters: seq<Parameter>) returns (errors: seq<FieldError>, values: map<string, string>)
    ensures Scan(errors, values) == ScanParameters(t, parameters, |parameters|)
  {
    errors, values := [], map[];
    for index := 0 to |parameters|
      invariant Scan(errors, values) == ScanParameters(t, parameters, index)
    {
      var name := Lower(t, Trim(t, parameters[index].name));
      var problem := ParameterProblem(t, name, parameters[index].value);
      if problem.Some? {
        errors := errors + [FieldError(AdvancedField(index), problem.value)];
        continue;
      }
      if name in values {
        errors := errors + [FieldError(AdvancedField(index), Repeated)];
        continue;
      }
      values := values[name := parameters[index].value];
    }
  }

  method NameIsTaken(t: Text, profiles: seq<Profile>, id: string, name: string) returns (taken: bool)
    ensures taken == NameTaken(t, profiles, id, name)
  {
    for i := 0 to |profiles|
      invariant forall j :: 0 <= j < i ==> profiles[j].id == id || !FoldEqual(t, Trim(t, profiles[j].name), name)
    {
      if profiles[i].id != id && FoldEqual(t, Trim(t, profiles[i].name), name) {
        return true;
      }
    }
    return false;
  }

  /** The checks that need neither the parameters nor the other profiles. */
  method CheckFields(t: Text, draft: Draft, name: string, host: string, sslMode: string, port: Option<nat>)
    returns (errors: seq<FieldError>)
    requires name == Trim(t, draft.name) && host == Trim(t, draft.host) && sslMode == Lower(t, Trim(t, draft.sslMode))
    requires port == ParsePort(t, draft.port)
    ensures errors == FieldErrors(t, draft)
  {
    errors := TextErrors(t, NameField, name, 256) + HostErrors(t, host);
    errors := errors + TextErrors(t, DatabaseField, Trim(t, draft.database), 256);
    errors := errors + TextErrors(t, UserField, Trim(t, draft.user), 256);
    errors := errors + When(draft.replacePassword && t.bytes(draft.password) > 4096, PasswordField, TooLong);
    errors := errors + When(port.None? || port.value == 0, PortField, OutOfRange);
    errors := errors + When(sslMode !in SSL_MODES, SslModeField, UnknownMode);
  }

  method ValidateDraft(t: Text, draft: Draft, existing: Document) returns (r: Result<Profile, seq<FieldError>>)
    ensures r == Validated(t, draft, existing.profiles)
  {
    var name, host := Trim(t, draft.name), Trim(t, draft.host);
    var sslMode := Lower(t, Trim(t, draft.sslMode));
    var port := ParsePort(t, draft.port);
    var errors := CheckFields(t, draft, name, host, sslMode, port);
    var taken := NameIsTaken(t, existing.profiles, draft.id, name);
    errors := errors + When(taken, NameField, NotUnique);
    errors := errors + When(|draft.parameters| > 64, AdvancedFields, TooMany);
    var parameterErrors, values := CollectParameters(t, draft.parameters);
    errors := errors + parameterErrors;
    if |errors| != 0 {
      return Failure(errors);
    }
    return Success(Profile(draft.id, name, host, if port.Some? then port.value else 0, Trim(t, draft.database),
                           Trim(t, draft.user), sslMode, values, draft.savePassword, 0, 0, 0, {}));
  }

  // ----- back to a draft -----

  function ParametersOf(names: seq<string>, values: map<string, string>): (r: seq<Parameter>)
    ensures |r| == |names|
  {
    seq(|names|,
      i requires 0 <= i < |names| => Parameter(names[i], if names[i] in values then values[names[i]] else ""))
  }

  ghost function SortedParameters(values: map<string, string>): seq<Parameter> {
    ParametersOf(SortedStrings(values.Keys), values)
  }

  method SortParameters(values: map<string, string>) returns (parameters: seq<Parameter>)
    ensures parameters == SortedParameters(values)
  {
    var names := SortStrings(values.Keys);
    SortedStringsFacts(values.Keys);
    parameters := [];
    for i := 0 to |names|
      invariant parameters == ParametersOf(names[..i], values)
    {
      assert names[i] in names;
      parameters := parameters + [Parameter(names[i], values[names[i]])];
    }
    assert names[..|names|] == names;
  }

  ghost function DraftOf(p: Profile): Draft {
    Draft(p.id, p.name, p.host, Decimal(p.port), p.database, p.user, "", false, p.savePassword, p.sslMode,
          SortedParameters(p.parameters))
  }

  method DraftFromProfile(p: Profile) returns (draft: Draft)
    ensures draft == DraftOf(p)
  {
    var parameters := SortParameters(p.parameters);
    draft := Draft(p.id, p.name, p.host, Decimal(p.port), p.database, p.user, "", false, p.savePassword, p.sslMode,
      parameters);
  }

  // ----- what acceptance means -----

  predicate FieldsAcceptable(t: Text, draft: Draft) {
    FieldErrors(t, draft) == [] && |draft.parameters| <= 64 &&
    ScanParameters(t, draft.parameters, |draft.parameters|).errors == []
  }

  /** Acceptance depends on the other profiles only through the uniqueness of the name. */
  lemma AcceptedMeans(t: Text, draft: Draft, profiles: seq<Profile>)
    ensures Validated(t, draft, profiles).Success? <==>
            FieldsAcceptable(t, draft) && !NameTaken(t, profiles, draft.id, Trim(t, draft.name))
  {
  }

  // ----- canonical strings -----

  lemma {:induction false} TrimLeftFacts(t: Text, s: string)
    ensures TrimLeft(t, s) == [] || !t.space(TrimLeft(t, s)[0])
  {
    if s != [] && t.space(s[0]) { TrimLeftFacts(t, s[1..]); }
  }

  lemma {:induction false} TrimRightFacts(t: Text, s: string)
    ensures TrimRight(t, s) <= s
    ensures TrimRight(t, s) == [] || !t.space(TrimRight(t, s)[|TrimRight(t, s)| - 1])
  {
    if s != [] && t.space(s[|s| - 1]) { TrimRightFacts(t, s[..|s| - 1]); }
  }

  /** No space at either end. */
  predicate Trimmed(t: Text, s: string) { s == [] || (!t.space(s[0]) && !t.space(s[|s| - 1])) }

  lemma TrimIsTrimmed(t: Text, s: string)
    ensures Trimmed(t, Trim(t, s))
  {
    TrimLeftFacts(t, s);
    TrimRightFacts(t, TrimLeft(t, s));
  }

  lemma TrimmedStays(t: Text, s: string)
    requires Trimmed(t, s)
    ensures Trim(t, s) == s
  {
  }

  lemma LowerTrimmed(t: Text, s: string)
    requires Sane(t) && Trimmed(t, s)
    ensures Trimmed(t, Lower(t, s)) && Lower(t, Lower(t, s)) == Lower(t, s)
  {
  }

  lemma DigitsAreTrimmed(t: Text, s: string)
    requires Sane(t) && AllDigits(s)
    ensures Trim(t, s) == s
  {
  }

  lemma PortRoundTrip(t: Text, port: nat)
    requires Sane(t) && port <= 65535
    ensures ParsePort(t, Decimal(port)) == Some(port)
  {
    DigitsAreTrimmed(t, Decimal(port));
    DecimalRoundTrip(port);
  }

  predicate TextFine(t: Text, value: string, limit: nat) {
    value != "" && !Any(t.control, value) && |value| <= limit
  }

  predicate HostFine(t: Text, host: string) {
    TextFine(t, host, 1024) && ',' !in host && !Any(t.space, host)
  }

  predicate FieldsFine(t: Text, draft: Draft) {
    TextFine(t, Trim(t, draft.name), 256) && HostFine(t, Trim(t, draft.host)) &&
    TextFine(t, Trim(t, draft.database), 256) && TextFine(t, Trim(t, draft.user), 256) &&
    !(draft.replacePassword && t.bytes(draft.password) > 4096) && !BadPort(t, draft.port) &&
    Lower(t, Trim(t, draft.sslMode)) in SSL_MODES
  }

  lemma NoFieldErrors(t: Text, draft: Draft)
    ensures FieldErrors(t, draft) == [] <==> FieldsFine(t, draft)
  {
  }

  // ----- canonical parameters -----

  /** A name in canonical form, with a value that is accepted under it. */
  predicate Clear(t: Text, name: string, value: string) {
    ParameterProblem(t, name, value).None? && Lower(t, Trim(t, name)) == name
  }

  ghost predicate AllClear(t: Text, values: map<string, string>) {
    forall name :: name in values ==> Clear(t, name, values[name])
  }

  lemma {:induction false} ScanIsClear(t: Text, parameters: seq<Parameter>, n: nat)
    requires Sane(t) && n <= |parameters| && ScanParameters(t, parameters, n).errors == []
    ensures AllClear(t, ScanParameters(t, parameters, n).values) && |ScanParameters(t, parameters, n).values| == n
  {
    if n > 0 {
      var p := parameters[n - 1];
      ScanIsClear(t, parameters, n - 1);
      TrimIsTrimmed(t, p.name);
      LowerTrimmed(t, Trim(t, p.name));
      TrimmedStays(t, ParameterName(t, p));
    }
  }

  /** The collector takes a parameter whose name is new. */
  ghost predicate Takes(next: Collector, name: string, value: string) {
    forall before: Scan, index: nat :: name !in before.values ==>
      next(before, Parameter(name, value), index) == before.(values := before.values[name := value])
  }

  lemma ClearIsTaken(t: Text, name: string, value: string)
    requires Clear(t, name, value)
    ensures Takes(CollectorOf(t), name, value)
  {
  }

  /** The values of the first `n` names. */
  function Picked(names: seq<string>, values: map<string, string>, n: nat): map<string, string>
    requires n <= |names|
  {
    if n == 0 then map[]
    else Picked(names, values, n - 1)[names[n - 1] := if names[n - 1] in values then values[names[n - 1]] else ""]
  }

  lemma {:induction false} PickedFacts(names: seq<string>, values: map<string, string>, n: nat, name: string)
    requires n <= |names|
    ensures name in Picked(names, values, n) <==> exists j :: 0 <= j < n && names[j] == name
    ensures name in Picked(names, values, n) && name in values ==> Picked(names, values, n)[name] == values[name]
  {
    if n > 0 { PickedFacts(names, values, n - 1, name); }
  }

  lemma PickedAll(names: seq<string>, values: map<string, string>)
    requires forall name :: name in names <==> name in values
    ensures Picked(names, values, |names|) == values
  {
    forall name
      ensures name in Picked(names, values, |names|) <==> name in values
      ensures name in values ==> Picked(names, values, |names|)[name] == values[name]
    {
      PickedFacts(names, values, |names|, name);
      if name in values { assert name in names; }
    }
  }

  lemma {:induction false} ScanTakesAll(next: Collector, names: seq<string>, values: map<string, string>, n: nat)
    requires n <= |names| && Distinct(names)
    requires forall i :: 0 <= i < |names| ==> names[i] in values && Takes(next, names[i], values[names[i]])
    ensures ScanWith(next, ParametersOf(names, values), n) == Scan([], Picked(names, values, n))
  {
    if n > 0 {
      var name := names[n - 1];
      ScanTakesAll(next, names, values, n - 1);
      PickedFacts(names, values, n - 1, name);
      assert Takes(next, name, values[name]);
    }
  }

  /** Scanning canonical parameters finds nothing wrong and collects them as they are. */
  lemma ScanOfSorted(t: Text, values: map<string, string>)
    requires AllClear(t, values)
    ensures
      var parameters := SortedParameters(values);
      |parameters| == |values| && ScanParameters(t, parameters, |parameters|) == Scan([], values)
  {
    var names := SortedStrings(values.Keys);
    SortedStringsFacts(values.Keys);
    AscendingIsDistinct(names);
    forall i | 0 <= i < |names| ensures names[i] in values && Takes(CollectorOf(t), names[i], values[names[i]]) {
      assert names[i] in names;
      ClearIsTaken(t, names[i], values[names[i]]);
    }
    ScanTakesAll(CollectorOf(t), names, values, |names|);
    PickedAll(names, values);
  }

  // ----- canonicalisation is idempotent -----

  /** The connection fields alone, without what the service adds. */
  function Bare(p: Profile): Profile { p.(createdAt := 0, updatedAt := 0, lastUsedAt := 0, unknown := {}) }

  ghost predicate IsCanonical(t: Text, p: Profile) {
    Trimmed(t, p.name) && TextFine(t, p.name, 256) && Trimmed(t, p.host) && HostFine(t, p.host) &&
    Trimmed(t, p.database) && TextFine(t, p.database, 256) && Trimmed(t, p.user) && TextFine(t, p.user, 256) &&
    0 < p.port <= 65535 && p.sslMode in SSL_MODES && Trimmed(t, p.sslMode) && Lower(t, p.sslMode) == p.sslMode &&
    AllClear(t, p.parameters) && |p.parameters| <= 64
  }

  lemma AcceptedIsCanonical(t: Text, draft: Draft, profiles: seq<Profile>)
    requires Sane(t) && Validated(t, draft, profiles).Success?
    ensures IsCanonical(t, Validated(t, draft, profiles).value)
    ensures !NameTaken(t, profiles, draft.id, Validated(t, draft, profiles).value.name)
  {
    AcceptedMeans(t, draft, profiles);
    NoFieldErrors(t, draft);
    TrimIsTrimmed(t, draft.name);
    TrimIsTrimmed(t, draft.host);
    TrimIsTrimmed(t, draft.database);
    TrimIsTrimmed(t, draft.user);
    TrimIsTrimmed(t, draft.sslMode);
    LowerTrimmed(t, Trim(t, draft.sslMode));
    ScanIsClear(t, draft.parameters, |draft.parameters|);
  }

  /** A profile in canonical form whose name is free is accepted as it is. */
  lemma CanonicalIsAccepted(t: Text, p: Profile, profiles: seq<Profile>)
    requires Sane(t) && IsCanonical(t, p) && !NameTaken(t, profiles, p.id, p.name)
    ensures Validated(t, DraftOf(p), profiles) == Success(Bare(p))
  {
    var draft := DraftOf(p);
    TrimmedStays(t, p.name);
    TrimmedStays(t, p.host);
    TrimmedStays(t, p.database);
    TrimmedStays(t, p.user);
    TrimmedStays(t, p.sslMode);
    PortRoundTrip(t, p.port);
    ScanOfSorted(t, p.parameters);
    NoFieldErrors(t, draft);
    AcceptedMeans(t, draft, profiles);
  }

  /** Validating the draft of an accepted profile returns the same profile. */
  lemma ValidationIsIdempotent(t: Text, draft: Draft, profiles: seq<Profile>)
    requires Sane(t) && Validated(t, draft, profiles).Success?
    ensures Validated(t, DraftOf(Validated(t, draft, profiles).value), profiles) == Validated(t, draft, profiles)
  {
    AcceptedIsCanonical(t, draft, profiles);
    CanonicalIsAccepted(t, Validated(t, draft, profiles).value, profiles);
  }
}
