/** Exactly which drafts are accepted as profiles, and as which. */
module ProfileEffect {
  import opened Relations
  import opened Decimals
  import opened Profiles
  import opened ProfileDocuments

  // ----- strings -----

  predicate AllSpace(t: Text, s: string) { forall i :: 0 <= i < |s| ==> t.space(s[i]) }

  /** `r` is `s` without the spaces at its ends. */
  ghost predicate IsTrimmedTo(t: Text, s: string, r: string) {
    (exists a: nat, b: nat :: CutsSpaces(t, s, a, b) && r == s[a..|s| - b]) &&
    (r == [] || (!t.space(r[0]) && !t.space(r[|r| - 1])))
  }

  predicate CutsSpaces(t: Text, s: string, a: nat, b: nat) {
    a <= |s| && b <= |s| - a && AllSpace(t, s[..a]) && AllSpace(t, s[|s| - b..])
  }

  lemma {:induction false} TrimLeftCuts(t: Text, s: string) returns (a: nat)
    ensures a <= |s| && AllSpace(t, s[..a]) && TrimLeft(t, s) == s[a..]
  {
    if s != [] && t.space(s[0]) {
      var k := TrimLeftCuts(t, s[1..]);
      a := k + 1;
      assert s[..a] == [s[0]] + s[1..][..k] && s[a..] == s[1..][k..];
    } else {
      a := 0;
    }
  }

  lemma {:induction false} TrimRightCuts(t: Text, s: string) returns (b: nat)
    ensures b <= |s| && AllSpace(t, s[|s| - b..]) && TrimRight(t, s) == s[..|s| - b]
  {
    if s != [] && t.space(s[|s| - 1]) {
      var front := s[..|s| - 1];
      var k := TrimRightCuts(t, front);
      b := k + 1;
      assert s[|s| - b..] == front[|front| - k..] + [s[|s| - 1]] && s[..|s| - b] == front[..|front| - k];
    } else {
      b := 0;
      assert s[..|s|] == s;
    }
  }

  lemma TrimMeans(t: Text, s: string)
    ensures IsTrimmedTo(t, s, Trim(t, s))
  {
    var a := TrimLeftCuts(t, s);
    var left := TrimLeft(t, s);
    var b := TrimRightCuts(t, left);
    TrimIsTrimmed(t, s);
    assert s[|s| - b..] == left[|left| - b..] && s[a..|s| - b] == left[..|left| - b];
    assert CutsSpaces(t, s, a, b);
  }

  /** There is only one way to do that. */
  lemma TrimmedToOne(t: Text, s: string, r: string, q: string)
    requires IsTrimmedTo(t, s, r) && IsTrimmedTo(t, s, q)
    ensures r == q
  {
    var a: nat, b: nat :| CutsSpaces(t, s, a, b) && r == s[a..|s| - b];
    var c: nat, d: nat :| CutsSpaces(t, s, c, d) && q == s[c..|s| - d];
    if r == [] {
      EmptyCut(t, s, a, b, c, d);
    } else if q == [] {
      EmptyCut(t, s, c, d, a, b);
    } else {
      EndsAgree(t, s, a, b, c, d);
      EndsAgree(t, s, c, d, a, b);
    }
  }

  /** If nothing is left, all was space. */
  lemma EmptyCut(t: Text, s: string, a: nat, b: nat, c: nat, d: nat)
    requires CutsSpaces(t, s, a, b) && a == |s| - b && c <= |s| && d <= |s| - c
    requires s[c..|s| - d] == [] || !t.space(s[c..|s| - d][0])
    ensures s[c..|s| - d] == []
  {
    forall i | 0 <= i < |s| ensures t.space(s[i]) {
      if i < a { assert s[..a][i] == s[i]; } else { assert s[|s| - b..][i - a] == s[i]; }
    }
  }

  lemma EndsAgree(t: Text, s: string, a: nat, b: nat, c: nat, d: nat)
    requires CutsSpaces(t, s, a, b) && CutsSpaces(t, s, c, d) && a < |s| - b && c < |s| - d
    requires !t.space(s[a]) && !t.space(s[|s| - b - 1])
    ensures c <= a && d <= b
  {
    forall i | 0 <= i < c ensures t.space(s[i]) { assert s[..c][i] == s[i]; }
    forall i | |s| - d <= i < |s| ensures t.space(s[i]) { assert s[|s| - d..][i - (|s| - d)] == s[i]; }
  }

  // ----- which drafts are accepted -----

  /** A required text without control characters and within the limit, once trimmed. */
  ghost predicate TextOk(t: Text, s: string, limit: nat) {
    forall r :: IsTrimmedTo(t, s, r) ==> r != "" && |r| <= limit && forall i :: 0 <= i < |r| ==> !t.control(r[i])
  }

  ghost predicate HostOk(t: Text, s: string) {
    TextOk(t, s, 1024) &&
    forall r :: IsTrimmedTo(t, s, r) ==> ',' !in r && forall i :: 0 <= i < |r| ==> !t.space(r[i])
  }

  /** Trimmed, it is a number from 1 to 65535 in decimal. */
  ghost predicate PortOk(t: Text, s: string) {
    forall r :: IsTrimmedTo(t, s, r) ==> r != "" && AllDigits(r) && 1 <= DecimalValue(r) <= 65535
  }

  ghost predicate ModeOk(t: Text, s: string) {
    forall r :: IsTrimmedTo(t, s, r) ==>
      Lower(t, r) in {"disable", "allow", "prefer", "require", "verify-ca", "verify-full"}
  }

  ghost predicate NameFree(t: Text, draft: Draft, profiles: seq<Profile>) {
    forall p, r, q ::
      p in profiles && p.id != draft.id && IsTrimmedTo(t, p.name, q) && IsTrimmedTo(t, draft.name, r) ==>
        !SameFolded(t, q, r)
  }

  /** The same but for upper and lower case. */
  predicate SameFolded(t: Text, a: string, b: string) {
    |a| == |b| && forall i :: 0 <= i < |a| ==> t.fold(a[i]) == t.fold(b[i])
  }

  predicate Occurs(s: string, part: string) {
    exists k :: 0 <= k <= |s| && part <= s[k..]
  }

  lemma OccursLater(s: string, part: string, k: nat)
    requires 0 < k <= |s|
    ensures part <= s[k..] <==> part <= s[1..][k - 1..]
  {
    assert s[1..][k - 1..] == s[k..];
  }

  /** A part occurs at the start, or in what follows the first character. */
  lemma OccursSplits(s: string, part: string)
    requires s != []
    ensures Occurs(s, part) <==> part <= s || Occurs(s[1..], part)
  {
    assert s[0..] == s;
    forall k | 0 < k <= |s| ensures part <= s[k..] <==> part <= s[1..][k - 1..] { OccursLater(s, part, k); }
    forall k | 0 <= k <= |s[1..]| && part <= s[1..][k..] ensures Occurs(s, part) {
      OccursLater(s, part, k + 1);
      assert part <= s[k + 1..];
    }
  }

  lemma {:induction false} ContainsMeans(s: string, part: string)
    ensures Contains(s, part) <==> Occurs(s, part)
  {
    if s != [] {
      ContainsMeans(s[1..], part);
      OccursSplits(s, part);
    } else {
      assert s[0..] == s;
    }
  }

  /** The name in lower case and trimmed is one that may be given a value, and the value is
      short, without control characters and gives away no password. */
  ghost predicate ParameterOk(t: Text, name: string, value: string) {
    name != "" && |name| <= 128 && t.bytes(value) <= 8192 &&
    name !in {"dbname", "database", "connect_timeout", "host", "password", "passfile", "port", "sslmode",
              "sslpassword", "user"} &&
    !Occurs(name, "password") && !Occurs(name, "passfile") && !Occurs(name, "secret") &&
    !Occurs(Lower(t, value), "password=") && !Occurs(Lower(t, value), "passfile=") &&
    (forall i :: 0 <= i < |name| ==> t.nameChar(name[i]) || name[i] == '.' || name[i] == '_' || name[i] == '-') &&
    forall i :: 0 <= i < |value| ==> !t.control(value[i])
  }

  ghost predicate ParametersOk(t: Text, parameters: seq<Parameter>) {
    |parameters| <= 64 && AllParametersOk(t, parameters, |parameters|)
  }

  ghost predicate AllParametersOk(t: Text, parameters: seq<Parameter>, n: nat)
    requires n <= |parameters|
  {
    (forall i :: 0 <= i < n ==> ParameterOk(t, ParameterName(t, parameters[i]), parameters[i].value)) &&
    forall i, j :: 0 <= i < j < n ==> ParameterName(t, parameters[i]) != ParameterName(t, parameters[j])
  }

  ghost predicate Acceptable(t: Text, draft: Draft, profiles: seq<Profile>) {
    TextOk(t, draft.name, 256) && HostOk(t, draft.host) && TextOk(t, draft.database, 256) &&
    TextOk(t, draft.user, 256) &&
    PortOk(t, draft.port) && ModeOk(t, draft.sslMode) && (draft.replacePassword ==> t.bytes(draft.password) <= 4096) &&
    NameFree(t, draft, profiles) && ParametersOk(t, draft.parameters)
  }

  lemma TrimmedIs(t: Text, s: string, r: string)
    ensures IsTrimmedTo(t, s, r) <==> r == Trim(t, s)
  {
    TrimMeans(t, s);
    if IsTrimmedTo(t, s, r) { TrimmedToOne(t, s, r, Trim(t, s)); }
  }

  lemma TextOkMeans(t: Text, s: string, limit: nat)
    ensures TextOk(t, s, limit) <==> TextFine(t, Trim(t, s), limit)
  {
    forall r ensures IsTrimmedTo(t, s, r) <==> r == Trim(t, s) { TrimmedIs(t, s, r); }
  }

  lemma HostOkMeans(t: Text, s: string)
    ensures HostOk(t, s) <==> HostFine(t, Trim(t, s))
  {
    TextOkMeans(t, s, 1024);
    forall r ensures IsTrimmedTo(t, s, r) <==> r == Trim(t, s) { TrimmedIs(t, s, r); }
  }

  lemma PortOkMeans(t: Text, s: string)
    ensures PortOk(t, s) <==> !BadPort(t, s)
    ensures PortOk(t, s) ==> ParsePort(t, s) == Some(DecimalValue(Trim(t, s)))
  {
    forall r ensures IsTrimmedTo(t, s, r) <==> r == Trim(t, s) { TrimmedIs(t, s, r); }
  }

  lemma ModeOkMeans(t: Text, s: string)
    ensures ModeOk(t, s) <==> Lower(t, Trim(t, s)) in SSL_MODES
  {
    forall r ensures IsTrimmedTo(t, s, r) <==> r == Trim(t, s) { TrimmedIs(t, s, r); }
  }

  lemma NameFreeMeans(t: Text, draft: Draft, profiles: seq<Profile>)
    ensures NameFree(t, draft, profiles) <==> !NameTaken(t, profiles, draft.id, Trim(t, draft.name))
  {
    forall s: string, r: string ensures IsTrimmedTo(t, s, r) <==> r == Trim(t, s) { TrimmedIs(t, s, r); }
    if NameTaken(t, profiles, draft.id, Trim(t, draft.name)) {
      var i :| 0 <= i < |profiles| && profiles[i].id != draft.id &&
               FoldEqual(t, Trim(t, profiles[i].name), Trim(t, draft.name));
      assert profiles[i] in profiles && IsTrimmedTo(t, profiles[i].name, Trim(t, profiles[i].name));
      assert SameFolded(t, Trim(t, profiles[i].name), Trim(t, draft.name));
    }
  }

  lemma ParameterOkMeans(t: Text, name: string, value: string)
    ensures ParameterOk(t, name, value) <==> ParameterProblem(t, name, value).None?
  {
    ContainsMeans(name, "password");
    ContainsMeans(name, "passfile");
    ContainsMeans(name, "secret");
    ContainsMeans(Lower(t, value), "password=");
    ContainsMeans(Lower(t, value), "passfile=");
    var bad := (c: char) => !t.nameChar(c) && c !in "._-";
    assert Any(bad, name) <==> !(forall i :: 0 <= i < |name| ==>
      t.nameChar(name[i]) || name[i] == '.' || name[i] == '_' || name[i] == '-');
    assert Any(c => !t.nameChar(c) && c !in "._-", name) <==> Any(bad, name);
  }

  /** Scanning finds nothing wrong exactly if each parameter is fine and their names differ, and
      then has collected their values. */
  lemma {:induction false} ScanMeans(t: Text, parameters: seq<Parameter>, n: nat)
    requires n <= |parameters|
    ensures
      var scan := ScanParameters(t, parameters, n);
      (scan.errors == [] <==> AllParametersOk(t, parameters, n)) &&
      (scan.errors == [] ==> Collected(t, parameters, n, scan.values))
  {
    if n == 0 {
      EmptyScan(t, parameters);
    } else {
      ScanMeans(t, parameters, n - 1);
      ParameterOkMeans(t, ParameterName(t, parameters[n - 1]), parameters[n - 1].value);
      ScanStep(t, parameters, n);
    }
  }

  lemma EmptyScan(t: Text, parameters: seq<Parameter>)
    ensures ScanParameters(t, parameters, 0) == Scan([], map[])
    ensures AllParametersOk(t, parameters, 0) && Collected(t, parameters, 0, map[])
  {
  }

  /** The values of the first `n` parameters under their canonical names, and nothing else. */
  ghost predicate Collected(t: Text, parameters: seq<Parameter>, n: nat, values: map<string, string>)
    requires n <= |parameters|
  {
    (forall i :: 0 <= i < n ==> HasValue(t, parameters[i], values)) &&
    forall name :: name in values ==> exists i :: 0 <= i < n && ParameterName(t, parameters[i]) == name
  }

  predicate HasValue(t: Text, p: Parameter, values: map<string, string>) {
    ParameterName(t, p) in values && values[ParameterName(t, p)] == p.value
  }

  lemma AllOkStep(t: Text, parameters: seq<Parameter>, n: nat)
    requires 0 < n <= |parameters|
    ensures AllParametersOk(t, parameters, n) <==>
      AllParametersOk(t, parameters, n - 1) &&
      ParameterOk(t, ParameterName(t, parameters[n - 1]), parameters[n - 1].value) &&
      NewName(t, parameters, n - 1, ParameterName(t, parameters[n - 1]))
  {
  }

  predicate NewName(t: Text, parameters: seq<Parameter>, n: nat, name: string)
    requires n <= |parameters|
  {
    forall i :: 0 <= i < n ==> ParameterName(t, parameters[i]) != name
  }

  lemma CollectedNames(t: Text, parameters: seq<Parameter>, n: nat, values: map<string, string>, name: string)
    requires n <= |parameters| && Collected(t, parameters, n, values)
    ensures name in values <==> !NewName(t, parameters, n, name)
  {
    if i :| 0 <= i < n && ParameterName(t, parameters[i]) == name { assert HasValue(t, parameters[i], values); }
  }

  lemma CollectedStep(t: Text, parameters: seq<Parameter>, n: nat, values: map<string, string>)
    requires 0 < n <= |parameters| && Collected(t, parameters, n - 1, values)
    requires NewName(t, parameters, n - 1, ParameterName(t, parameters[n - 1]))
    ensures Collected(t, parameters, n, values[ParameterName(t, parameters[n - 1]) := parameters[n - 1].value])
  {
    var after := values[ParameterName(t, parameters[n - 1]) := parameters[n - 1].value];
    forall i | 0 <= i < n ensures HasValue(t, parameters[i], after) {
      if i < n - 1 { assert HasValue(t, parameters[i], values); }
    }
    forall name | name in after ensures exists i :: 0 <= i < n && ParameterName(t, parameters[i]) == name {
      if name == ParameterName(t, parameters[n - 1]) { assert ParameterName(t, parameters[n - 1]) == name; }
    }
  }

  lemma ScanIs(t: Text, parameters: seq<Parameter>, n: nat)
    requires 0 < n <= |parameters|
    ensures
      var before, after := ScanParameters(t, parameters, n - 1), ScanParameters(t, parameters, n);
      var p := parameters[n - 1];
      var name := ParameterName(t, p);
      if ParameterProblem(t, name, p.value).Some? || name in before.values then after.errors != []
      else after == before.(values := before.values[name := p.value])
  {
  }

  lemma ScanStep(t: Text, parameters: seq<Parameter>, n: nat)
    requires 0 < n <= |parameters|
    requires
      var before := ScanParameters(t, parameters, n - 1);
      (before.errors == [] <==> AllParametersOk(t, parameters, n - 1)) &&
      (before.errors == [] ==> Collected(t, parameters, n - 1, before.values))
    requires
      var p := parameters[n - 1];
      ParameterOk(t, ParameterName(t, p), p.value) <==> ParameterProblem(t, ParameterName(t, p), p.value).None?
    ensures
      var scan := ScanParameters(t, parameters, n);
      (scan.errors == [] <==> AllParametersOk(t, parameters, n)) &&
      (scan.errors == [] ==> Collected(t, parameters, n, scan.values))
  {
    var before, p := ScanParameters(t, parameters, n - 1), parameters[n - 1];
    AllOkStep(t, parameters, n);
    ScanIs(t, parameters, n);
    if before.errors != [] {
      ErrorsStay(t, parameters, n);
    } else {
      CollectedNames(t, parameters, n - 1, before.values, ParameterName(t, p));
      if NewName(t, parameters, n - 1, ParameterName(t, p)) { CollectedStep(t, parameters, n, before.values); }
    }
  }

  lemma ErrorsStay(t: Text, parameters: seq<Parameter>, n: nat)
    requires 0 < n <= |parameters| && ScanParameters(t, parameters, n - 1).errors != []
    ensures ScanParameters(t, parameters, n).errors != []
  {
  }

  /** A draft is accepted exactly if it meets every condition, beside the profiles there are. */
  lemma AcceptedExactly(t: Text, draft: Draft, profiles: seq<Profile>)
    ensures Validated(t, draft, profiles).Success? <==> Acceptable(t, draft, profiles)
  {
    AcceptedMeans(t, draft, profiles);
    NoFieldErrors(t, draft);
    FieldsOkMeans(t, draft);
    NameFreeMeans(t, draft, profiles);
    ScanMeans(t, draft.parameters, |draft.parameters|);
    AcceptableParts(t, draft, profiles, FieldsOk(t, draft), NameFree(t, draft, profiles),
      ParametersOk(t, draft.parameters));
  }

  ghost predicate FieldsOk(t: Text, draft: Draft) {
    TextOk(t, draft.name, 256) && HostOk(t, draft.host) && TextOk(t, draft.database, 256) &&
    TextOk(t, draft.user, 256) && PortOk(t, draft.port) && ModeOk(t, draft.sslMode) &&
    (draft.replacePassword ==> t.bytes(draft.password) <= 4096)
  }

  lemma AcceptableParts(t: Text, draft: Draft, profiles: seq<Profile>, fields: bool, name: bool, parameters: bool)
    requires fields == FieldsOk(t, draft) && name == NameFree(t, draft, profiles)
    requires parameters == ParametersOk(t, draft.parameters)
    ensures Acceptable(t, draft, profiles) <==> fields && name && parameters
  {
  }

  lemma FieldsOkMeans(t: Text, draft: Draft)
    ensures FieldsOk(t, draft) <==> FieldsFine(t, draft)
  {
    TextOkMeans(t, draft.name, 256);
    HostOkMeans(t, draft.host);
    TextOkMeans(t, draft.database, 256);
    TextOkMeans(t, draft.user, 256);
    PortOkMeans(t, draft.port);
    ModeOkMeans(t, draft.sslMode);
  }

  /** The profile has the trimmed texts, the number of the port, the mode in lower case, and the
      parameters under their names in lower case. */
  lemma AcceptedAs(t: Text, draft: Draft, profiles: seq<Profile>)
    requires Validated(t, draft, profiles).Success?
    ensures
      var p := Validated(t, draft, profiles).value;
      p.id == draft.id && p.savePassword == draft.savePassword && IsTrimmedTo(t, draft.name, p.name) &&
      IsTrimmedTo(t, draft.host, p.host) && IsTrimmedTo(t, draft.database, p.database) &&
      IsTrimmedTo(t, draft.user, p.user) &&
      (forall r :: IsTrimmedTo(t, draft.port, r) ==> AllDigits(r) && p.port == DecimalValue(r)) &&
      (forall r :: IsTrimmedTo(t, draft.sslMode, r) ==> p.sslMode == Lower(t, r)) &&
      Collected(t, draft.parameters, |draft.parameters|, p.parameters)
  {
    AcceptedMeans(t, draft, profiles);
    NoFieldErrors(t, draft);
    TrimMeans(t, draft.name);
    TrimMeans(t, draft.host);
    TrimMeans(t, draft.database);
    TrimMeans(t, draft.user);
    PortAs(t, draft);
    ModeAs(t, draft);
    ScanMeans(t, draft.parameters, |draft.parameters|);
  }

  lemma PortAs(t: Text, draft: Draft)
    requires !BadPort(t, draft.port)
    ensures forall r :: IsTrimmedTo(t, draft.port, r) ==> AllDigits(r) && Canonical(t, draft).port == DecimalValue(r)
  {
    forall r | IsTrimmedTo(t, draft.port, r) ensures AllDigits(r) && Canonical(t, draft).port == DecimalValue(r) {
      TrimmedIs(t, draft.port, r);
    }
  }

  lemma ModeAs(t: Text, draft: Draft)
    ensures forall r :: IsTrimmedTo(t, draft.sslMode, r) ==> Canonical(t, draft).sslMode == Lower(t, r)
  {
    forall r | IsTrimmedTo(t, draft.sslMode, r) ensures Canonical(t, draft).sslMode == Lower(t, r) {
      TrimmedIs(t, draft.sslMode, r);
    }
  }

  // ----- which documents are accepted -----

  /** The name of a field that must not be there, in any case and with spaces around it. */
  ghost predicate Forbidden(t: Text, name: string) {
    exists r :: IsTrimmedTo(t, name, r) &&
      Lower(t, r) in {"password", "passfile", "connection_url", "original_url", "secret"}
  }

  ghost predicate NoneForbidden(t: Text, names: set<string>) { forall name :: name in names ==> !Forbidden(t, name) }

  lemma SensitiveMeans(t: Text, names: set<string>)
    ensures HasSensitive(t, names) <==> !NoneForbidden(t, names)
  {
    forall name ensures Forbidden(t, name) <==> Lower(t, Trim(t, name)) in SENSITIVE {
      TrimmedIs(t, name, Trim(t, name));
      if Forbidden(t, name) {
        var r :| IsTrimmedTo(t, name, r) &&
                 Lower(t, r) in {"password", "passfile", "connection_url", "original_url", "secret"};
        TrimmedIs(t, name, r);
      }
    }
  }

  /** A document is accepted exactly if it has no forbidden field, its identifiers are there and
      differ, and each of its profiles has no forbidden field and is acceptable beside the others. */
  lemma DocumentsAcceptedExactly(t: Text, document: Document)
    ensures DocumentValid(t, document) <==>
      NoneForbidden(t, document.unknown) &&
      (forall i, j :: 0 <= i < j < |document.profiles| ==> document.profiles[i].id != document.profiles[j].id) &&
      forall i :: 0 <= i < |document.profiles| ==> ProfileOk(t, document.profiles, document.profiles[i])
  {
    SensitiveMeans(t, document.unknown);
    forall i | 0 <= i < |document.profiles|
      ensures SavedFine(t, document.profiles, document.profiles[i]) <==>
              ProfileOk(t, document.profiles, document.profiles[i])
    {
      SensitiveMeans(t, document.profiles[i].unknown);
      AcceptedExactly(t, DraftOf(document.profiles[i]), document.profiles);
    }
  }

  ghost predicate ProfileOk(t: Text, profiles: seq<Profile>, p: Profile) {
    p.id != "" && NoneForbidden(t, p.unknown) && Acceptable(t, DraftOf(p), profiles)
  }
}
