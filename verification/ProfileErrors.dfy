/** Which problems validation reports, and for which fields. */
module ProfileErrors {
  import opened Relations
  import opened Decimals
  import opened Profiles
  import opened ProfileEffect

  // ----- the fields -----

  /** What can be wrong with a required text. */
  predicate TextWrong(t: Text, r: string, limit: nat, problem: Problem) {
    (problem == IsRequired && r == "") || (problem == TooLong && |r| > limit) ||
    (problem == HasControl && exists i :: 0 <= i < |r| && t.control(r[i]))
  }

  predicate HostWrong(t: Text, r: string, problem: Problem) {
    TextWrong(t, r, 1024, problem) || (problem == ManyHosts && ',' in r) ||
    (problem == HasSpace && exists i :: 0 <= i < |r| && t.space(r[i]))
  }

  lemma TextErrorsAre(t: Text, field: Field, value: string, limit: nat, e: FieldError)
    ensures e in TextErrors(t, field, value, limit) <==> e.field == field && TextWrong(t, value, limit, e.problem)
  {
  }

  lemma HostErrorsAre(t: Text, host: string, e: FieldError)
    ensures e in HostErrors(t, host) <==> e.field == HostField && HostWrong(t, host, e.problem)
  {
  }

  /** What is wrong with a field, apart from the parameters. */
  ghost predicate FieldWrong(t: Text, draft: Draft, profiles: seq<Profile>, e: FieldError) {
    match e.field
    case NameField =>
      TextWrong(t, Trim(t, draft.name), 256, e.problem) ||
      (e.problem == NotUnique && !NameFree(t, draft, profiles))
    case HostField => HostWrong(t, Trim(t, draft.host), e.problem)
    case DatabaseField => TextWrong(t, Trim(t, draft.database), 256, e.problem)
    case UserField => TextWrong(t, Trim(t, draft.user), 256, e.problem)
    case PasswordField => e.problem == TooLong && draft.replacePassword && t.bytes(draft.password) > 4096
    case PortField => e.problem == OutOfRange && !PortOk(t, draft.port)
    case SslModeField => e.problem == UnknownMode && !ModeOk(t, draft.sslMode)
    case AdvancedFields => e.problem == TooMany && |draft.parameters| > 64
    case AdvancedField(_) => false
  }

  lemma FieldErrorsAre(t: Text, draft: Draft, e: FieldError)
    requires PortOk(t, draft.port) <==> !BadPort(t, draft.port)
    requires ModeOk(t, draft.sslMode) <==> Lower(t, Trim(t, draft.sslMode)) in SSL_MODES
    ensures e in FieldErrors(t, draft) <==>
      match e.field
      case NameField => TextWrong(t, Trim(t, draft.name), 256, e.problem)
      case HostField => HostWrong(t, Trim(t, draft.host), e.problem)
      case DatabaseField => TextWrong(t, Trim(t, draft.database), 256, e.problem)
      case UserField => TextWrong(t, Trim(t, draft.user), 256, e.problem)
      case PasswordField => e.problem == TooLong && draft.replacePassword && t.bytes(draft.password) > 4096
      case PortField => e.problem == OutOfRange && !PortOk(t, draft.port)
      case SslModeField => e.problem == UnknownMode && !ModeOk(t, draft.sslMode)
      case _ => false
  {
    TextErrorsAre(t, NameField, Trim(t, draft.name), 256, e);
    HostErrorsAre(t, Trim(t, draft.host), e);
    TextErrorsAre(t, DatabaseField, Trim(t, draft.database), 256, e);
    TextErrorsAre(t, UserField, Trim(t, draft.user), 256, e);
  }

  // ----- the parameters -----

  /** In the order in which they are looked for. */
  const PARAMETER_PROBLEMS := [IsRequired, IsReserved, IsSecret, BadCharacters, TooLong, HasControl, TooLong]

  predicate Secret(t: Text, name: string, value: string) {
    Occurs(name, "password") || Occurs(name, "passfile") || Occurs(name, "secret") ||
    Occurs(Lower(t, value), "password=") || Occurs(Lower(t, value), "passfile=")
  }

  predicate Has(t: Text, name: string, value: string, k: nat) {
    if k == 0 then name == ""
    else if k == 1 then name in {"dbname", "database", "connect_timeout", "host", "password", "passfile", "port",
                                 "sslmode", "sslpassword", "user"}
    else if k == 2 then Secret(t, name, value)
    else if k == 3 then
      exists i :: 0 <= i < |name| && !t.nameChar(name[i]) && name[i] != '.' && name[i] != '_' && name[i] != '-'
    else if k == 4 then |name| > 128
    else if k == 5 then exists i :: 0 <= i < |value| && t.control(value[i])
    else t.bytes(value) > 8192
  }

  predicate FirstHad(t: Text, name: string, value: string, k: nat) {
    k < 7 && Has(t, name, value, k) && forall j :: 0 <= j < k ==> !Has(t, name, value, j)
  }

  predicate Flawless(t: Text, name: string, value: string) { forall k :: 0 <= k < 7 ==> !Has(t, name, value, k) }

  lemma ContainedMeans(t: Text, name: string, value: string)
    ensures Secret(t, name, value) <==>
      Contains(name, "password") || Contains(name, "passfile") || Contains(name, "secret") ||
      Contains(Lower(t, value), "password=") || Contains(Lower(t, value), "passfile=")
  {
    ContainsMeans(name, "password");
    ContainsMeans(name, "passfile");
    ContainsMeans(name, "secret");
    ContainsMeans(Lower(t, value), "password=");
    ContainsMeans(Lower(t, value), "passfile=");
  }

  lemma BadCharactersMeans(t: Text, name: string, value: string)
    ensures Any(c => !t.nameChar(c) && c !in "._-", name) <==> Has(t, name, value, 3)
  {
    var bad := (c: char) => !t.nameChar(c) && c !in "._-";
    assert Any(bad, name) <==> Has(t, name, value, 3);
    assert Any(c => !t.nameChar(c) && c !in "._-", name) <==> Any(bad, name);
  }

  lemma SevenFlaws(t: Text, name: string, value: string)
    ensures Flawless(t, name, value) <==>
      !Has(t, name, value, 0) && !Has(t, name, value, 1) && !Has(t, name, value, 2) && !Has(t, name, value, 3) &&
      !Has(t, name, value, 4) && !Has(t, name, value, 5) && !Has(t, name, value, 6)
  {
  }

  /** Problems are looked for one after the other. */
  lemma ProblemInOrder(t: Text, name: string, value: string)
    ensures ParameterProblem(t, name, value) ==
      if Has(t, name, value, 0) then Some(IsRequired)
      else if Has(t, name, value, 1) then Some(IsReserved)
      else if Has(t, name, value, 2) then Some(IsSecret)
      else if Has(t, name, value, 3) then Some(BadCharacters)
      else if Has(t, name, value, 4) then Some(TooLong)
      else if Has(t, name, value, 5) then Some(HasControl)
      else if Has(t, name, value, 6) then Some(TooLong)
      else None
  {
    ContainedMeans(t, name, value);
    BadCharactersMeans(t, name, value);
  }

  /** The first thing wrong with a parameter is its problem. */
  lemma ProblemIsFirst(t: Text, name: string, value: string)
    ensures
      var problem := ParameterProblem(t, name, value);
      (problem.None? <==> Flawless(t, name, value)) &&
      forall k: nat :: FirstHad(t, name, value, k) ==> problem == Some(PARAMETER_PROBLEMS[k])
  {
    ProblemInOrder(t, name, value);
    SevenFlaws(t, name, value);
    forall k: nat | FirstHad(t, name, value, k)
      ensures ParameterProblem(t, name, value) == Some(PARAMETER_PROBLEMS[k])
    {
      FirstIs(t, name, value, k);
    }
  }

  lemma FirstIs(t: Text, name: string, value: string, k: nat)
    requires FirstHad(t, name, value, k)
    ensures
      (k == 0 ==> Has(t, name, value, 0)) && (k > 0 ==> !Has(t, name, value, 0)) &&
      (k == 1 ==> Has(t, name, value, 1)) && (k > 1 ==> !Has(t, name, value, 1)) &&
      (k == 2 ==> Has(t, name, value, 2)) && (k > 2 ==> !Has(t, name, value, 2)) &&
      (k == 3 ==> Has(t, name, value, 3)) && (k > 3 ==> !Has(t, name, value, 3)) &&
      (k == 4 ==> Has(t, name, value, 4)) && (k > 4 ==> !Has(t, name, value, 4)) &&
      (k == 5 ==> Has(t, name, value, 5)) && (k > 5 ==> !Has(t, name, value, 5)) && (k == 6 ==> Has(t, name, value, 6))
  {
  }

  predicate FlawlessAt(t: Text, parameters: seq<Parameter>, i: nat)
    requires i < |parameters|
  {
    Flawless(t, ParameterName(t, parameters[i]), parameters[i].value)
  }

  /** A flawless parameter among the first `n` has that name. */
  predicate NameUsed(t: Text, parameters: seq<Parameter>, n: nat, name: string)
    requires n <= |parameters|
  {
    exists i :: 0 <= i < n && FlawlessAt(t, parameters, i) && ParameterName(t, parameters[i]) == name
  }

  /** What is reported of a parameter: the first thing wrong with it, or that a flawless one
      before it has its name. */
  ghost predicate ParameterWrong(t: Text, parameters: seq<Parameter>, i: nat, problem: Problem)
    requires i < |parameters|
  {
    if FlawlessAt(t, parameters, i)
    then problem == Repeated && NameUsed(t, parameters, i, ParameterName(t, parameters[i]))
    else exists k: nat :: FirstHad(t, ParameterName(t, parameters[i]), parameters[i].value, k) &&
                     problem == PARAMETER_PROBLEMS[k]
  }

  lemma FlawHasFirst(t: Text, name: string, value: string, k: nat) returns (j: nat)
    requires k < 7 && Has(t, name, value, k)
    ensures FirstHad(t, name, value, j)
    decreases k
  {
    if i: nat :| i < k && Has(t, name, value, i) { j := FlawHasFirst(t, name, value, i); } else { j := k; }
  }

  /** The problem of one parameter is what is wrong with it. */
  lemma ProblemIsWrong(t: Text, parameters: seq<Parameter>, i: nat, problem: Problem)
    requires i < |parameters| && !FlawlessAt(t, parameters, i)
    ensures ParameterWrong(t, parameters, i, problem) <==>
            ParameterProblem(t, ParameterName(t, parameters[i]), parameters[i].value) == Some(problem)
  {
    var name, value := ParameterName(t, parameters[i]), parameters[i].value;
    ProblemIsFirst(t, name, value);
    var k: nat :| k < 7 && Has(t, name, value, k);
    var j := FlawHasFirst(t, name, value, k);
    assert FirstHad(t, name, value, j);
  }

  ghost predicate ScanReports(t: Text, parameters: seq<Parameter>, n: nat, scan: Scan)
    requires n <= |parameters|
  {
    (forall name :: name in scan.values <==> NameUsed(t, parameters, n, name)) &&
    forall e :: e in scan.errors <==> ParameterReported(t, parameters, n, e)
  }

  ghost predicate ParameterReported(t: Text, parameters: seq<Parameter>, n: nat, e: FieldError)
    requires n <= |parameters|
  {
    e.field.AdvancedField? && e.field.index < n && ParameterWrong(t, parameters, e.field.index, e.problem)
  }

  lemma UsedStep(t: Text, parameters: seq<Parameter>, n: nat, name: string)
    requires 0 < n <= |parameters|
    ensures NameUsed(t, parameters, n, name) <==>
      NameUsed(t, parameters, n - 1, name) ||
      (FlawlessAt(t, parameters, n - 1) && ParameterName(t, parameters[n - 1]) == name)
  {
  }

  lemma ReportedStep(t: Text, parameters: seq<Parameter>, n: nat, e: FieldError)
    requires 0 < n <= |parameters|
    ensures ParameterReported(t, parameters, n, e) <==>
      ParameterReported(t, parameters, n - 1, e) ||
      (e.field == AdvancedField(n - 1) && ParameterWrong(t, parameters, n - 1, e.problem))
  {
  }

  /** What one more parameter adds to a scan. */
  lemma NextReports(t: Text, parameters: seq<Parameter>, n: nat, before: Scan)
    requires 0 < n <= |parameters| && ScanReports(t, parameters, n - 1, before)
    ensures ScanReports(t, parameters, n, ScanNext(t, before, parameters[n - 1], n - 1))
  {
    var p := parameters[n - 1];
    var name := ParameterName(t, p);
    var after := ScanNext(t, before, p, n - 1);
    ProblemIsFirst(t, name, p.value);
    forall problem: Problem | !FlawlessAt(t, parameters, n - 1)
      ensures ParameterWrong(t, parameters, n - 1, problem) <==> ParameterProblem(t, name, p.value) == Some(problem)
    {
      ProblemIsWrong(t, parameters, n - 1, problem);
    }
    forall other: string ensures other in after.values <==> NameUsed(t, parameters, n, other) {
      UsedStep(t, parameters, n, other);
    }
    forall e: FieldError ensures e in after.errors <==> ParameterReported(t, parameters, n, e) {
      ReportedStep(t, parameters, n, e);
    }
  }

  lemma {:induction false} ScanIsReported(t: Text, parameters: seq<Parameter>, n: nat)
    requires n <= |parameters|
    ensures ScanReports(t, parameters, n, ScanParameters(t, parameters, n))
  {
    if n > 0 {
      ScanIsReported(t, parameters, n - 1);
      NextReports(t, parameters, n, ScanParameters(t, parameters, n - 1));
    }
  }

  // ----- the whole draft -----

  /** Everything wrong with a draft is reported, and nothing else. */
  lemma EverythingWrongIsReported(t: Text, draft: Draft, profiles: seq<Profile>, e: FieldError)
    ensures e in DraftErrors(t, draft, profiles) <==>
      FieldWrong(t, draft, profiles, e) || ParameterReported(t, draft.parameters, |draft.parameters|, e)
  {
    PortOkMeans(t, draft.port);
    ModeOkMeans(t, draft.sslMode);
    NameFreeMeans(t, draft, profiles);
    FieldErrorsAre(t, draft, e);
    ScanIsReported(t, draft.parameters, |draft.parameters|);
    DraftErrorsSplit(t, draft, profiles, e, NameTaken(t, profiles, draft.id, Trim(t, draft.name)),
      ScanParameters(t, draft.parameters, |draft.parameters|).errors);
  }

  lemma DraftErrorsSplit(
    t: Text, draft: Draft, profiles: seq<Profile>, e: FieldError, taken: bool, scanned: seq<FieldError>)
    requires taken == NameTaken(t, profiles, draft.id, Trim(t, draft.name))
    requires scanned == ScanParameters(t, draft.parameters, |draft.parameters|).errors
    ensures e in DraftErrors(t, draft, profiles) <==>
      e in FieldErrors(t, draft) || (e == FieldError(NameField, NotUnique) && taken) ||
      (e == FieldError(AdvancedFields, TooMany) && |draft.parameters| > 64) || e in scanned
  {
  }
}
