/** What a successful Prepare, Commit and Delete leave behind, in terms of the draft and of the
    stores before, and when they succeed. */
module CredentialEffect {
  import opened Relations
  import opened Profiles
  import opened ProfileDocuments
  import opened Credentials

  // ----- prepare -----

  ghost predicate Known(profiles: seq<Profile>, id: string) { exists i :: 0 <= i < |profiles| && profiles[i].id == id }

  /** The saved profile of that identifier. */
  ghost predicate IsPrior(stores: Stores, id: string, prior: Profile) {
    prior.id == id && prior in stores.document.profiles
  }

  /** A typed password is used; otherwise the keychain's, if the profile keeps it there and it
      can be read; otherwise the session's. */
  lemma PreparedPassword(t: Text, stores: Stores, draft: Draft, faults: PrepareFaults)
    requires DocumentValid(t, stores.document) && PrepareOn(t, stores, draft, faults).Success?
    ensures
      var p := PrepareOn(t, stores, draft, faults).value;
      draft.replacePassword || (draft.id == "" && draft.password != "") ==>
        p.password == draft.password && p.source == FromInput
    ensures
      var p := PrepareOn(t, stores, draft, faults).value;
      draft.id == "" && !draft.replacePassword && draft.password == "" ==> p.source == NoCredential
    ensures
      var p := PrepareOn(t, stores, draft, faults).value;
      forall prior :: IsPrior(stores, draft.id, prior) && draft.id != "" && !draft.replacePassword ==>
        if prior.savePassword && !faults.get && draft.id in stores.keychain
        then p.password == stores.keychain[draft.id] && p.source == FromKeychain
        else if draft.id in stores.session
        then p.password == stores.session[draft.id] && p.source == FromSession
        else p.source == NoCredential
  {
    PriorIsFound(stores, draft.id);
    NoEmptyId(t, stores);
  }

  lemma NoEmptyId(t: Text, stores: Stores)
    requires DocumentValid(t, stores.document)
    ensures IndexOf(stores.document.profiles, "", 0) == -1
  {
    forall i | 0 <= i < |stores.document.profiles| ensures stores.document.profiles[i].id != "" {
      assert SavedFine(t, stores.document.profiles, stores.document.profiles[i]);
    }
  }

  lemma PriorIsFound(stores: Stores, id: string)
    requires DistinctIds(stores.document.profiles)
    ensures
      var profiles := stores.document.profiles;
      var at := IndexOf(profiles, id, 0);
      (at >= 0 <==> Known(profiles, id)) &&
      (forall prior :: IsPrior(stores, id, prior) ==> at >= 0 && profiles[at] == prior) &&
      (at >= 0 ==> IsPrior(stores, id, profiles[at]))
  {
    var profiles := stores.document.profiles;
    var at := IndexOf(profiles, id, 0);
    forall prior | IsPrior(stores, id, prior) ensures at >= 0 && profiles[at] == prior {
      var k :| 0 <= k < |profiles| && profiles[k] == prior;
      assert profiles[at].id == profiles[k].id && at <= k;
    }
  }

  /** When Prepare succeeds. */
  lemma PrepareSucceedsWhen(t: Text, stores: Stores, draft: Draft, faults: PrepareFaults)
    requires DocumentValid(t, stores.document)
    ensures PrepareOn(t, stores, draft, faults).Success? <==>
      !faults.load && (draft.id == "" || Known(stores.document.profiles, draft.id)) &&
      Validated(t, draft, stores.document.profiles).Success? && (draft.id == "" ==> faults.newId.Some?) &&
      !(draft.id != "" && !draft.replacePassword && faults.get && draft.id !in stores.session &&
        exists prior :: IsPrior(stores, draft.id, prior) && prior.savePassword)
  {
    NoEmptyId(t, stores);
    PriorIsFound(stores, draft.id);
    CredentialFailsWhen(stores, draft, faults.get);
    ValidatedKeepsId(t, draft, stores.document.profiles);
    PrepareParts(t, stores, draft, faults);
  }

  lemma CredentialFailsWhen(stores: Stores, draft: Draft, get: bool)
    requires DistinctIds(stores.document.profiles) && IndexOf(stores.document.profiles, "", 0) == -1
    ensures Credential(stores, draft, IndexOf(stores.document.profiles, draft.id, 0), get).Failure? <==>
      draft.id != "" && !draft.replacePassword && get && draft.id !in stores.session &&
      exists prior :: IsPrior(stores, draft.id, prior) && prior.savePassword
  {
    PriorIsFound(stores, draft.id);
  }

  lemma ValidatedKeepsId(t: Text, draft: Draft, profiles: seq<Profile>)
    ensures Validated(t, draft, profiles).Success? ==> Validated(t, draft, profiles).value.id == draft.id
  {
  }

  lemma PrepareParts(t: Text, stores: Stores, draft: Draft, faults: PrepareFaults)
    ensures
      var profiles := stores.document.profiles;
      var previous := IndexOf(profiles, draft.id, 0);
      PrepareOn(t, stores, draft, faults).Success? <==>
      !faults.load && !(draft.id != "" && previous == -1) && Validated(t, draft, profiles).Success? &&
      !(Validated(t, draft, profiles).value.id == "" && faults.newId.None?) &&
      Credential(stores, draft, previous, faults.get).Success?
  {
  }

  /** Which error Prepare reports. */
  lemma PrepareErrors(t: Text, stores: Stores, draft: Draft, faults: PrepareFaults)
    requires DocumentValid(t, stores.document) && PrepareOn(t, stores, draft, faults).Failure?
    ensures
      var error := PrepareOn(t, stores, draft, faults).error;
      var validated := Validated(t, draft, stores.document.profiles);
      if faults.load then error == LoadFailed
      else if draft.id != "" && !Known(stores.document.profiles, draft.id) then error == ProfileGone
      else if validated.Failure? then error == Invalid(validated.error)
      else error == if draft.id == "" then NoIdentifier else KeychainUnavailable
  {
    NoEmptyId(t, stores);
    PriorIsFound(stores, draft.id);
    ValidatedKeepsId(t, draft, stores.document.profiles);
    PrepareFails(t, stores, draft, faults);
  }

  lemma PrepareFails(t: Text, stores: Stores, draft: Draft, faults: PrepareFaults)
    requires IndexOf(stores.document.profiles, "", 0) == -1 && PrepareOn(t, stores, draft, faults).Failure?
    requires Validated(t, draft, stores.document.profiles).Success? ==>
               Validated(t, draft, stores.document.profiles).value.id == draft.id
    ensures
      var error := PrepareOn(t, stores, draft, faults).error;
      var validated := Validated(t, draft, stores.document.profiles);
      if faults.load then error == LoadFailed
      else if draft.id != "" && IndexOf(stores.document.profiles, draft.id, 0) == -1 then error == ProfileGone
      else if validated.Failure? then error == Invalid(validated.error)
      else error == if draft.id == "" then NoIdentifier else KeychainUnavailable
  {
  }

  // ----- commit -----

  /** The user asked for a password to be kept that is not in the keychain already. */
  ghost predicate NewSecret(stores: Stores, draft: Draft, source: Source) {
    draft.savePassword &&
    (draft.replacePassword || (draft.id == "" && draft.password != "") ||
     (source == FromSession && exists prior :: IsPrior(stores, draft.id, prior) && !prior.savePassword))
  }

  predicate KeychainFails(draft: Draft, faults: CommitFaults) { (draft.id != "" && faults.get) || faults.set_ }

  lemma WritesNewSecret(t: Text, stores: Stores, draft: Draft, faults: PrepareFaults)
    requires DocumentValid(t, stores.document) && PrepareOn(t, stores, draft, faults).Success?
    ensures
      var p := PrepareOn(t, stores, draft, faults).value;
      (WritesSecret(p) <==> NewSecret(stores, draft, p.source)) && p.profile.savePassword == draft.savePassword &&
      (p.previous >= 0 <==> draft.id != "")
  {
    PriorIsFound(stores, draft.id);
    NoEmptyId(t, stores);
    PreparedFacts(t, stores, draft, faults);
    PreparedProfile(t, stores, draft, faults);
  }

  /** Where the secrets of the profile are after a successful commit. Without "save password"
      the keychain has none, and the session has the password, if there is one. A password to be
      kept is in the keychain and no longer in the session, or, when the keychain fails, only in
      the session. Otherwise both are as before. */
  ghost predicate SecretsPlaced(
    before: Stores, after: Stores, draft: Draft, p: Prepared, faults: CommitFaults)
  {
    var id := p.profile.id;
    if !draft.savePassword then
      (draft.id != "" ==> id !in after.keychain) &&
      (p.source != NoCredential ==> id in after.session && after.session[id] == p.password) &&
      (p.source == NoCredential && draft.id != "" ==> id !in after.session)
    else if NewSecret(before, draft, p.source) then
      if KeychainFails(draft, faults)
      then id in after.session && after.session[id] == p.password && after.keychain == before.keychain
      else id in after.keychain && after.keychain[id] == p.password && id !in after.session
    else after.keychain == before.keychain && after.session == before.session
  }

  lemma CommitPlacesSecrets(
    t: Text, stores: Stores, draft: Draft, faults: PrepareFaults, markLastUsed: bool, now: nat,
    commitFaults: CommitFaults)
    requires DocumentValid(t, stores.document) && PrepareOn(t, stores, draft, faults).Success?
    requires CommitOn(t, stores, PrepareOn(t, stores, draft, faults).value, markLastUsed, now, commitFaults).0.Success?
    ensures
      var p := PrepareOn(t, stores, draft, faults).value;
      var after := CommitOn(t, stores, p, markLastUsed, now, commitFaults).1;
      SecretsPlaced(stores, after, draft, p, commitFaults)
  {
    var p := PrepareOn(t, stores, draft, faults).value;
    WritesNewSecret(t, stores, draft, faults);
    CommittedFacts(t, stores, p, markLastUsed, now, commitFaults);
    HandledPlaces(stores, draft, p, commitFaults);
  }

  lemma HandledPlaces(stores: Stores, draft: Draft, p: Prepared, faults: CommitFaults)
    requires (WritesSecret(p) <==> NewSecret(stores, draft, p.source)) && p.profile.savePassword == draft.savePassword
    requires (p.previous >= 0 <==> draft.id != "") && HandleSecret(stores, p, faults).Handled?
    ensures
      var handled := HandleSecret(stores, p, faults);
      SecretsPlaced(stores, Stores(stores.document, handled.keychain, handled.session), draft, p, faults)
  {
  }

  /** The profile saved: the fields are those of the draft in canonical form, the times are kept
      up, and "save password" is off if the password could not be put in the keychain. */
  ghost predicate SavedAs(
    t: Text, before: Stores, draft: Draft, id: string, saved: Profile, markLastUsed: bool, now: nat) {
    Validated(t, draft, before.document.profiles).Success? &&
    var valid := Validated(t, draft, before.document.profiles).value;
    saved.id == id && saved.name == valid.name && saved.host == valid.host && saved.port == valid.port &&
    saved.database == valid.database && saved.user == valid.user && saved.sslMode == valid.sslMode &&
    saved.parameters == valid.parameters && saved.updatedAt == now && (markLastUsed ==> saved.lastUsedAt == now) &&
    (forall prior :: draft.id != "" && IsPrior(before, draft.id, prior) ==>
       saved.createdAt == (if prior.createdAt == 0 then now else prior.createdAt) &&
       (!markLastUsed ==> saved.lastUsedAt == prior.lastUsedAt) && saved.unknown == prior.unknown)
  }

  /** A successful commit saves the profile in the place of the one with its identifier, or at
      the end, and no other profile changes. */
  lemma CommitSavesProfile(
    t: Text, stores: Stores, draft: Draft, faults: PrepareFaults, markLastUsed: bool, now: nat,
    commitFaults: CommitFaults) returns (at: nat)
    requires DocumentValid(t, stores.document) && PrepareOn(t, stores, draft, faults).Success?
    requires CommitOn(t, stores, PrepareOn(t, stores, draft, faults).value, markLastUsed, now, commitFaults).0.Success?
    ensures
      var p := PrepareOn(t, stores, draft, faults).value;
      var before := stores.document.profiles;
      var after := CommitOn(t, stores, p, markLastUsed, now, commitFaults).1.document.profiles;
      at < |after| && SavedAs(t, stores, draft, p.profile.id, after[at], markLastUsed, now) &&
      after[at].savePassword ==
        (draft.savePassword && !(NewSecret(stores, draft, p.source) && KeychainFails(draft, commitFaults))) &&
      (if draft.id == "" then at == |before| == |after| - 1 else |after| == |before| && before[at].id == draft.id) &&
      forall k :: 0 <= k < |before| && k != at ==> after[k] == before[k]
  {
    var p := PrepareOn(t, stores, draft, faults).value;
    WritesNewSecret(t, stores, draft, faults);
    PreparedFacts(t, stores, draft, faults);
    CommittedFacts(t, stores, p, markLastUsed, now, commitFaults);
    HandledSaves(stores, draft, p, commitFaults);
    at := if p.previous >= 0 then p.previous else |stores.document.profiles|;
    var flag := HandleSecret(stores, p, commitFaults).savePassword;
    StampedIsSavedAs(t, stores, draft, faults, flag, markLastUsed, now);
    CommittedAt(p, flag, markLastUsed, now, at);
  }

  lemma CommittedAt(p: Prepared, savePassword: bool, markLastUsed: bool, now: nat, at: nat)
    requires -1 <= p.previous < |p.document.profiles|
    requires at == if p.previous >= 0 then p.previous else |p.document.profiles|
    ensures
      var before, after := p.document.profiles, Committed(p, savePassword, markLastUsed, now).profiles;
      |after| == (if p.previous >= 0 then |before| else |before| + 1) &&
      after[at] == Stamped(p.profile, savePassword, markLastUsed, now) && after[at].savePassword == savePassword &&
      forall k :: 0 <= k < |before| && k != at ==> after[k] == before[k]
  {
  }

  lemma StampedIsSavedAs(
    t: Text, stores: Stores, draft: Draft, faults: PrepareFaults, savePassword: bool, markLastUsed: bool, now: nat)
    requires DocumentValid(t, stores.document) && PrepareOn(t, stores, draft, faults).Success?
    ensures
      var p := PrepareOn(t, stores, draft, faults).value;
      SavedAs(t, stores, draft, p.profile.id, Stamped(p.profile, savePassword, markLastUsed, now), markLastUsed, now)
  {
    WritesNewSecret(t, stores, draft, faults);
    PreparedFacts(t, stores, draft, faults);
    PreparedProfile(t, stores, draft, faults);
    PreparedTimes(t, stores, draft, faults);
    PriorIsFound(stores, draft.id);
  }

  lemma HandledSaves(stores: Stores, draft: Draft, p: Prepared, faults: CommitFaults)
    requires (WritesSecret(p) <==> NewSecret(stores, draft, p.source)) && p.profile.savePassword == draft.savePassword
    requires (p.previous >= 0 <==> draft.id != "") && HandleSecret(stores, p, faults).Handled?
    ensures HandleSecret(stores, p, faults).savePassword ==
      (draft.savePassword && !(NewSecret(stores, draft, p.source) && KeychainFails(draft, faults)))
  {
  }

  lemma PreparedTimes(t: Text, stores: Stores, draft: Draft, faults: PrepareFaults)
    requires PrepareOn(t, stores, draft, faults).Success?
    ensures
      var p := PrepareOn(t, stores, draft, faults).value;
      var profiles := stores.document.profiles;
      p.previous >= 0 ==>
        p.profile.createdAt == profiles[p.previous].createdAt &&
        p.profile.lastUsedAt == profiles[p.previous].lastUsedAt &&
        p.profile.unknown == profiles[p.previous].unknown
  {
  }

  /** What a successful commit returns is the profile it saved and where its password now is. The
      document it saves is of version 1. */
  lemma CommitReturnsSaved(
    t: Text, stores: Stores, draft: Draft, faults: PrepareFaults, markLastUsed: bool, now: nat,
    commitFaults: CommitFaults)
    requires DocumentValid(t, stores.document) && PrepareOn(t, stores, draft, faults).Success?
    requires CommitOn(t, stores, PrepareOn(t, stores, draft, faults).value, markLastUsed, now, commitFaults).0.Success?
    ensures
      var p := PrepareOn(t, stores, draft, faults).value;
      var (r, after) := CommitOn(t, stores, p, markLastUsed, now, commitFaults);
      r.value.profile in after.document.profiles && r.value.profile.id == p.profile.id &&
      ModeTells(stores, draft, p.source, r.value.mode, commitFaults) &&
      after.document.version == 1 && after.document.unknown == stores.document.unknown
  {
    var p := PrepareOn(t, stores, draft, faults).value;
    WritesNewSecret(t, stores, draft, faults);
    PreparedFacts(t, stores, draft, faults);
    SourceTells(t, stores, draft, faults);
    CommittedFacts(t, stores, p, markLastUsed, now, commitFaults);
    ModeIs(stores, draft, p, commitFaults);
    SavedIsReturned(t, stores, p, markLastUsed, now, commitFaults);
  }

  lemma SavedIsReturned(t: Text, stores: Stores, p: Prepared, markLastUsed: bool, now: nat, faults: CommitFaults)
    requires -1 <= p.previous < |p.document.profiles| && CommitOn(t, stores, p, markLastUsed, now, faults).0.Success?
    ensures
      var (r, after) := CommitOn(t, stores, p, markLastUsed, now, faults);
      r.value.profile in after.document.profiles && r.value.profile.id == p.profile.id &&
      r.value.mode == HandleSecret(stores, p, faults).mode && after.document.version == 1 &&
      after.document.unknown == p.document.unknown
  {
    var flag := HandleSecret(stores, p, faults).savePassword;
    CommittedAt(p, flag, markLastUsed, now, if p.previous >= 0 then p.previous else |p.document.profiles|);
  }

  ghost predicate KeptBefore(stores: Stores, draft: Draft) {
    draft.id != "" && exists prior :: IsPrior(stores, draft.id, prior) && prior.savePassword
  }

  /** The session has a password that is not saved, or could not be; the keychain has one newly
      saved or saved before; otherwise there is none. */
  ghost predicate ModeTells(stores: Stores, draft: Draft, source: Source, mode: Source, faults: CommitFaults) {
    if !draft.savePassword then mode == if source != NoCredential then FromSession else NoCredential
    else if NewSecret(stores, draft, source) then
      mode == if KeychainFails(draft, faults) then FromSession else FromKeychain
    else mode == if KeptBefore(stores, draft) then FromKeychain else NoCredential
  }

  lemma SourceTells(t: Text, stores: Stores, draft: Draft, faults: PrepareFaults)
    requires DocumentValid(t, stores.document) && PrepareOn(t, stores, draft, faults).Success?
    ensures
      var p := PrepareOn(t, stores, draft, faults).value;
      (PreviouslySaved(p) <==> KeptBefore(stores, draft)) && (p.source == FromKeychain ==> PreviouslySaved(p)) &&
      (p.source == FromSession && !PreviouslySaved(p) && draft.savePassword ==> NewSecret(stores, draft, p.source))
  {
    PriorIsFound(stores, draft.id);
    NoEmptyId(t, stores);
    PreparedFacts(t, stores, draft, faults);
    PreparedPassword(t, stores, draft, faults);
  }

  lemma ModeIs(stores: Stores, draft: Draft, p: Prepared, faults: CommitFaults)
    requires (WritesSecret(p) <==> NewSecret(stores, draft, p.source)) && p.profile.savePassword == draft.savePassword
    requires (p.previous >= 0 <==> draft.id != "") && HandleSecret(stores, p, faults).Handled?
    requires (PreviouslySaved(p) <==> KeptBefore(stores, draft)) && (p.source == FromKeychain ==> PreviouslySaved(p))
    requires p.source == FromSession && !PreviouslySaved(p) && draft.savePassword ==> NewSecret(stores, draft, p.source)
    ensures ModeTells(stores, draft, p.source, HandleSecret(stores, p, faults).mode, faults)
  {
  }

  /** When a commit of what was prepared on the same document succeeds. */
  lemma CommitSucceedsWhen(
    t: Text, stores: Stores, draft: Draft, faults: PrepareFaults, markLastUsed: bool, now: nat,
    commitFaults: CommitFaults)
    requires Sane(t) && DocumentValid(t, stores.document) && PrepareOn(t, stores, draft, faults).Success?
    requires FreshId(stores.document.profiles, faults.newId)
    ensures CommitOn(t, stores, PrepareOn(t, stores, draft, faults).value, markLastUsed, now,
      commitFaults).0.Success? <==>
      !commitFaults.cancelled && !commitFaults.save && VersionFits(stores.document) &&
      (draft.savePassword || draft.id == "" || (!commitFaults.get && !commitFaults.delete))
  {
    var p := PrepareOn(t, stores, draft, faults).value;
    PreparedIsReady(t, stores, draft, faults);
    var handled := HandleSecret(stores, p, commitFaults);
    if handled.Handled? { CommittedIsStorable(t, stores, draft, faults, handled.savePassword, markLastUsed, now); }
    ReadyCommits(t, stores, p, markLastUsed, now, commitFaults, VersionFits(stores.document));
  }

  predicate VersionFits(document: Document) { document.version == 0 || document.version == 1 }

  lemma PreparedIsReady(t: Text, stores: Stores, draft: Draft, faults: PrepareFaults)
    requires DocumentValid(t, stores.document) && PrepareOn(t, stores, draft, faults).Success?
    requires FreshId(stores.document.profiles, faults.newId)
    ensures
      var p := PrepareOn(t, stores, draft, faults).value;
      p.profile.id != "" && p.draftId == p.profile.id && p.profile.savePassword == draft.savePassword &&
      (p.previous >= 0 <==> draft.id != "")
  {
    WritesNewSecret(t, stores, draft, faults);
    PreparedFacts(t, stores, draft, faults);
    PreparedIsPlaced(t, stores, draft, faults);
  }

  lemma ReadyCommits(
    t: Text, stores: Stores, p: Prepared, markLastUsed: bool, now: nat, faults: CommitFaults, fits: bool)
    requires p.profile.id != "" && p.draftId == p.profile.id
    requires
      var handled := HandleSecret(stores, p, faults);
      handled.Handled? ==> (Storable(t, Committed(p, handled.savePassword, markLastUsed, now)) <==> fits)
    ensures CommitOn(t, stores, p, markLastUsed, now, faults).0.Success? <==>
      !faults.cancelled && !faults.save && fits &&
      (p.profile.savePassword || p.previous < 0 || (!faults.get && !faults.delete))
  {
    HandledWhen(stores, p, faults);
    CommitParts(t, stores, p, markLastUsed, now, faults);
  }

  lemma CommittedIsStorable(
    t: Text, stores: Stores, draft: Draft, faults: PrepareFaults, savePassword: bool, markLastUsed: bool, now: nat)
    requires Sane(t) && DocumentValid(t, stores.document) && PrepareOn(t, stores, draft, faults).Success?
    requires FreshId(stores.document.profiles, faults.newId)
    ensures Storable(t, Committed(PrepareOn(t, stores, draft, faults).value, savePassword, markLastUsed, now)) <==>
            VersionFits(stores.document)
  {
    var p := PrepareOn(t, stores, draft, faults).value;
    CommittedDocumentIsValid(t, stores, draft, faults, savePassword, markLastUsed, now);
    StorableWhen(t, p, savePassword, markLastUsed, now);
    PreparedOn(t, stores, draft, faults);
  }

  lemma PreparedOn(t: Text, stores: Stores, draft: Draft, faults: PrepareFaults)
    requires PrepareOn(t, stores, draft, faults).Success?
    ensures PrepareOn(t, stores, draft, faults).value.document == stores.document
  {
  }

  lemma StorableWhen(t: Text, p: Prepared, savePassword: bool, markLastUsed: bool, now: nat)
    requires DocumentValid(t, Committed(p, savePassword, markLastUsed, now))
    ensures Storable(t, Committed(p, savePassword, markLastUsed, now)) <==> VersionFits(p.document)
  {
  }

  lemma HandledWhen(stores: Stores, p: Prepared, faults: CommitFaults)
    ensures HandleSecret(stores, p, faults).Handled? <==>
      p.profile.savePassword || p.previous < 0 || (!faults.get && !faults.delete)
  {
  }

  lemma CommitParts(t: Text, stores: Stores, p: Prepared, markLastUsed: bool, now: nat, faults: CommitFaults)
    ensures
      var handled := HandleSecret(stores, p, faults);
      CommitOn(t, stores, p, markLastUsed, now, faults).0.Success? <==>
      !faults.cancelled && p.profile.id != "" && p.draftId == p.profile.id && handled.Handled? && !faults.save &&
      Storable(t, Committed(p, handled.savePassword, markLastUsed, now))
  {
  }

  /** Which error a commit of what was prepared reports. */
  lemma CommitErrors(
    t: Text, stores: Stores, draft: Draft, faults: PrepareFaults, markLastUsed: bool, now: nat,
    commitFaults: CommitFaults)
    requires DocumentValid(t, stores.document) && PrepareOn(t, stores, draft, faults).Success?
    requires FreshId(stores.document.profiles, faults.newId)
    requires CommitOn(t, stores, PrepareOn(t, stores, draft, faults).value, markLastUsed, now, commitFaults).0.Failure?
    ensures CommitOn(t, stores, PrepareOn(t, stores, draft, faults).value, markLastUsed, now, commitFaults).0.error ==
      if commitFaults.cancelled then Cancelled
      else if !draft.savePassword && draft.id != "" && (commitFaults.get || commitFaults.delete)
      then KeychainUnavailable
      else SaveFailed
  {
    var p := PrepareOn(t, stores, draft, faults).value;
    PreparedIsReady(t, stores, draft, faults);
    HandledWhen(stores, p, commitFaults);
    ReadyFails(t, stores, p, markLastUsed, now, commitFaults);
  }

  lemma ReadyFails(t: Text, stores: Stores, p: Prepared, markLastUsed: bool, now: nat, faults: CommitFaults)
    requires p.profile.id != "" && p.draftId == p.profile.id
    requires CommitOn(t, stores, p, markLastUsed, now, faults).0.Failure?
    ensures CommitOn(t, stores, p, markLastUsed, now, faults).0.error ==
      if faults.cancelled then Cancelled
      else if HandleSecret(stores, p, faults).Refused? then KeychainUnavailable
      else SaveFailed
  {
  }

  // ----- delete -----

  /** A successful delete takes exactly that profile away, and its secrets with it. */
  lemma DeleteRemovesProfile(t: Text, stores: Stores, id: string, faults: DeleteFaults) returns (at: nat)
    requires DocumentValid(t, stores.document) && DeleteOn(t, stores, id, faults).0.None?
    ensures
      var before := stores.document.profiles;
      var after := DeleteOn(t, stores, id, faults).1;
      at < |before| && before[at].id == id && |after.document.profiles| == |before| - 1 &&
      (forall k :: 0 <= k < |before| - 1 ==> after.document.profiles[k] == before[if k < at then k else k + 1]) &&
      !Known(after.document.profiles, id) && id !in after.keychain && id !in after.session &&
      after.document.version == stores.document.version && after.document.unknown == stores.document.unknown
  {
    at := IndexOf(stores.document.profiles, id, 0);
    WithoutAt(stores.document.profiles, at);
    forall k | 0 <= k < |stores.document.profiles| && k != at ensures stores.document.profiles[k].id != id {
      assert k < at ==> stores.document.profiles[k].id != stores.document.profiles[at].id;
      assert at < k ==> stores.document.profiles[at].id != stores.document.profiles[k].id;
    }
  }

  lemma DeleteSucceedsWhen(t: Text, stores: Stores, id: string, faults: DeleteFaults)
    requires DocumentValid(t, stores.document)
    ensures DeleteOn(t, stores, id, faults).0.None? <==>
      Known(stores.document.profiles, id) && stores.document.version == 1 &&
      !faults.load && !faults.get && !faults.delete && !faults.save
  {
    PriorIsFound(stores, id);
    var index := IndexOf(stores.document.profiles, id, 0);
    if index >= 0 { DeletedDocumentIsValid(t, stores.document, index); }
    DeleteParts(t, stores, id, faults, index);
  }

  lemma DeleteParts(t: Text, stores: Stores, id: string, faults: DeleteFaults, index: int)
    requires index == IndexOf(stores.document.profiles, id, 0)
    requires index >= 0 ==>
      DocumentValid(t, stores.document.(profiles := Without(stores.document.profiles, index)))
    ensures DeleteOn(t, stores, id, faults).0.None? <==>
      index >= 0 && stores.document.version == 1 && !faults.load && !faults.get && !faults.delete && !faults.save
  {
  }

  /** Which error a delete reports. */
  lemma DeleteErrors(t: Text, stores: Stores, id: string, faults: DeleteFaults)
    requires DocumentValid(t, stores.document) && DeleteOn(t, stores, id, faults).0.Some?
    ensures DeleteOn(t, stores, id, faults).0.value ==
      if faults.load then LoadFailed
      else if !Known(stores.document.profiles, id) then ProfileGone
      else if faults.get || faults.delete then KeychainUnavailable
      else SaveFailed
  {
    PriorIsFound(stores, id);
    DeleteFails(t, stores, id, faults, IndexOf(stores.document.profiles, id, 0));
  }

  lemma DeleteFails(t: Text, stores: Stores, id: string, faults: DeleteFaults, index: int)
    requires index == IndexOf(stores.document.profiles, id, 0) && DeleteOn(t, stores, id, faults).0.Some?
    ensures DeleteOn(t, stores, id, faults).0.value ==
      if faults.load then LoadFailed
      else if index < 0 then ProfileGone
      else if faults.get || faults.delete then KeychainUnavailable
      else SaveFailed
  {
  }
}
