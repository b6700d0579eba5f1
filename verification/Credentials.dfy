/** Keeping the profile document, the keychain and the session secrets consistent. */
module Credentials {
  import opened Relations
  import opened Profiles
  import opened ProfileDocuments

  datatype Source = NoCredential | FromInput | FromKeychain | FromSession

  datatype ServiceError =
    | LoadFailed | ProfileGone | Invalid(errors: seq<FieldError>) | NoIdentifier | KeychainUnavailable
    | Cancelled | NotPrepared | SaveFailed

  /** What the service keeps consistent. */
  datatype Stores = Stores(document: Document, keychain: map<string, string>, session: map<string, string>)

  datatype Prepared = Prepared(
    profile: Profile, password: string, source: Source, replace: bool, draftId: string, document: Document,
    previous: int)

  datatype Saved = Saved(profile: Profile, mode: Source)

  /** Which external calls fail; `newId` is what the generator returns, if anything. */
  datatype PrepareFaults = PrepareFaults(load: bool, newId: Option<string>, get: bool)

  datatype CommitFaults = CommitFaults(cancelled: bool, get: bool, set_: bool, delete: bool, save: bool, restore: bool)

  datatype DeleteFaults = DeleteFaults(load: bool, get: bool, delete: bool, save: bool, restore: bool)

  // ----- prepare -----

  /** The first profile with that identifier, from `k` on, or -1. */
  function IndexOf(profiles: seq<Profile>, id: string, k: nat): (i: int)
    requires k <= |profiles|
    ensures i == -1 || (k <= i < |profiles| && profiles[i].id == id)
    ensures i == -1 <==> forall j :: k <= j < |profiles| ==> profiles[j].id != id
    decreases |profiles| - k
  {
    if k == |profiles| then -1 else if profiles[k].id == id then k else IndexOf(profiles, id, k + 1)
  }

  /** The validated profile with its identifier and what is carried over from the previous one. */
  function Identified(saved: Profile, newId: Option<string>, profiles: seq<Profile>, previous: int): Option<Profile>
    requires previous < |profiles|
  {
    if saved.id == "" && newId.None? then None
    else
      var p := if saved.id == "" then saved.(id := newId.value) else saved;
      if previous < 0 then Some(p)
      else
        var prior := profiles[previous];
        Some(p.(createdAt := prior.createdAt, updatedAt := prior.updatedAt, lastUsedAt := prior.lastUsedAt,
          unknown := prior.unknown))
  }

  /** Where the password of a prepared profile comes from. */
  function Credential(stores: Stores, draft: Draft, previous: int, get: bool): Result<(string, Source), ServiceError>
    requires previous < |stores.document.profiles|
  {
    if draft.replacePassword || (previous < 0 && draft.password != "") then Success((draft.password, FromInput))
    else if previous < 0 then Success(("", NoCredential))
    else
      var prior := stores.document.profiles[previous];
      if prior.savePassword && !get && prior.id in stores.keychain
      then Success((stores.keychain[prior.id], FromKeychain))
      else if prior.id in stores.session then Success((stores.session[prior.id], FromSession))
      else if prior.savePassword && get then Failure(KeychainUnavailable)
      else Success(("", NoCredential))
  }

  ghost function PrepareOn(
    t: Text, stores: Stores, draft: Draft, faults: PrepareFaults): Result<Prepared, ServiceError> {
    var profiles := stores.document.profiles;
    var previous := IndexOf(profiles, draft.id, 0);
    var validated := Validated(t, draft, profiles);
    if faults.load then Failure(LoadFailed)
    else if draft.id != "" && previous == -1 then Failure(ProfileGone)
    else if validated.Failure? then Failure(Invalid(validated.error))
    else
      var identified := Identified(validated.value, faults.newId, profiles, previous);
      var credential := Credential(stores, draft, previous, faults.get);
      if identified.None? then Failure(NoIdentifier)
      else if credential.Failure? then Failure(credential.error)
      else Success(Prepared(identified.value, credential.value.0, credential.value.1, draft.replacePassword,
                            identified.value.id, stores.document, previous))
  }

  // ----- commit -----

  predicate PreviouslySaved(p: Prepared) {
    0 <= p.previous < |p.document.profiles| && p.document.profiles[p.previous].savePassword
  }

  predicate WritesSecret(p: Prepared) {
    p.profile.savePassword &&
    (p.replace || (p.previous == -1 && p.source == FromInput) || (!PreviouslySaved(p) && p.source == FromSession))
  }

  predicate DeletesSecret(p: Prepared) { !p.profile.savePassword && p.previous >= 0 }

  /** What the credential part of a commit does: refuse, or change the secrets. */
  datatype Handled =
    | Refused
    | Handled(
        keychain: map<string, string>, session: map<string, string>, savePassword: bool, mode: Source, mutated: bool)

  function HandleSecret(stores: Stores, p: Prepared, faults: CommitFaults): Handled {
    var id := p.profile.id;
    if WritesSecret(p) then
      if (p.previous >= 0 && faults.get) || faults.set_ then
        Handled(stores.keychain, stores.session[id := p.password], false, FromSession, false)
      else Handled(stores.keychain[id := p.password], stores.session - {id}, true, FromKeychain, true)
    else if DeletesSecret(p) then
      if faults.get || faults.delete then Refused
      else if p.source != NoCredential then
        Handled(stores.keychain - {id}, stores.session[id := p.password], false, FromSession, true)
      else Handled(stores.keychain - {id}, stores.session - {id}, false, NoCredential, true)
    else if !p.profile.savePassword then
      if p.source != NoCredential
      then Handled(stores.keychain, stores.session[id := p.password], false, FromSession, false)
      else Handled(stores.keychain, stores.session, false, NoCredential, false)
    else
      Handled(stores.keychain, stores.session, true,
              if PreviouslySaved(p) || p.source == FromKeychain then FromKeychain
              else if p.source == FromSession then FromSession else NoCredential,
              false)
  }

  function Stamped(profile: Profile, savePassword: bool, markLastUsed: bool, now: nat): Profile {
    profile.(savePassword := savePassword, createdAt := if profile.createdAt == 0 then now else profile.createdAt,
             updatedAt := now, lastUsedAt := if markLastUsed then now else profile.lastUsedAt)
  }

  /** The document a commit saves. */
  function Committed(p: Prepared, savePassword: bool, markLastUsed: bool, now: nat): Document {
    p.document.(version := if p.document.version == 0 then 1 else p.document.version,
                profiles := Put(p.document.profiles, p.previous, Stamped(p.profile, savePassword, markLastUsed, now)))
  }

  /** The repository refuses other versions and documents it would not load again. */
  ghost predicate Storable(t: Text, document: Document) { document.version == 1 && DocumentValid(t, document) }

  /** The old secret, which is only read when there is a previous profile. */
  function Restored(
    before: map<string, string>, mutated: map<string, string>, id: string, known: bool): map<string, string> {
    if known && id in before then mutated[id := before[id]] else mutated - {id}
  }

  function RestoredSession(before: map<string, string>, now: map<string, string>, id: string): map<string, string> {
    if id in before then now[id := before[id]] else now - {id}
  }

  ghost function CommitOn(t: Text, stores: Stores, p: Prepared, markLastUsed: bool, now: nat, faults: CommitFaults)
    : (Result<Saved, ServiceError>, Stores)
  {
    var id := p.profile.id;
    var handled := HandleSecret(stores, p, faults);
    if faults.cancelled then (Failure(Cancelled), stores)
    else if id == "" || p.draftId != id then (Failure(NotPrepared), stores)
    else if handled.Refused? then (Failure(KeychainUnavailable), stores)
    else
      var document := Committed(p, handled.savePassword, markLastUsed, now);
      if !faults.save && Storable(t, document) then
        (Success(Saved(Stamped(p.profile, handled.savePassword, markLastUsed, now), handled.mode)),
         Stores(document, handled.keychain, handled.session))
      else
        (Failure(SaveFailed),
         stores.(keychain := if handled.mutated && !faults.restore
                             then Restored(stores.keychain, handled.keychain, id, p.previous >= 0)
                             else handled.keychain,
                 session := RestoredSession(stores.session, handled.session, id)))
  }

  // ----- delete -----

  function Without(profiles: seq<Profile>, index: nat): seq<Profile>
    requires index < |profiles|
  {
    profiles[..index] + profiles[index + 1..]
  }

  ghost function DeleteOn(t: Text, stores: Stores, id: string, faults: DeleteFaults): (Option<ServiceError>, Stores) {
    var index := IndexOf(stores.document.profiles, id, 0);
    if faults.load then (Some(LoadFailed), stores)
    else if index == -1 then (Some(ProfileGone), stores)
    else if faults.get || faults.delete then (Some(KeychainUnavailable), stores)
    else
      var document := stores.document.(profiles := Without(stores.document.profiles, index));
      if !faults.save && Storable(t, document)
      then (None, Stores(document, stores.keychain - {id}, stores.session - {id}))
      else
        (Some(SaveFailed),
         stores.(keychain := if faults.restore then stores.keychain - {id}
                             else Restored(stores.keychain, stores.keychain - {id}, id, true)))
  }

  // ----- an error changes nothing -----

  /** A commit that overwrites an entry the keychain already had for a new identifier. */
  predicate OverwritesUnread(stores: Stores, p: Prepared, faults: CommitFaults) {
    p.previous < 0 && WritesSecret(p) && !faults.set_ && p.profile.id in stores.keychain
  }

  /** A commit that reaches the keychain and writes there over an entry it did not read. */
  predicate LosesUnread(stores: Stores, p: Prepared, faults: CommitFaults) {
    !faults.cancelled && p.profile.id != "" && p.draftId == p.profile.id && OverwritesUnread(stores, p, faults)
  }

  /** A commit that returns an error leaves document, keychain and session of every profile as
      they were, given that compensation succeeds, if and only if it did not write over an entry
      the keychain already held for a generated identifier. */
  lemma FailedCommitChangesNothing(
    t: Text, stores: Stores, p: Prepared, markLastUsed: bool, now: nat, faults: CommitFaults)
    requires CommitOn(t, stores, p, markLastUsed, now, faults).0.Failure? && !faults.restore
    ensures CommitOn(t, stores, p, markLastUsed, now, faults).1 == stores <==>
            !LosesUnread(stores, p, faults)
  {
    var id := p.profile.id;
    var handled := HandleSecret(stores, p, faults);
    if CommitOn(t, stores, p, markLastUsed, now, faults).0.error == SaveFailed {
      assert RestoredSession(stores.session, handled.session, id) == stores.session;
      var after := CommitOn(t, stores, p, markLastUsed, now, faults).1;
      if OverwritesUnread(stores, p, faults) {
        assert id !in after.keychain;
      } else {
        assert after.keychain == stores.keychain;
      }
    }
  }

  lemma NewProfilePrepared(t: Text, stores: Stores, draft: Draft, id: string)
    requires DocumentValid(t, stores.document) && draft.id == "" && draft.password != ""
    requires Validated(t, draft, stores.document.profiles).Success?
    requires Validated(t, draft, stores.document.profiles).value.id == ""
    ensures
      var prepared := PrepareOn(t, stores, draft, PrepareFaults(false, Some(id), false));
      prepared.Success? &&
      prepared.value == Prepared(Validated(t, draft, stores.document.profiles).value.(id := id), draft.password,
                                 FromInput, draft.replacePassword, id, stores.document, -1)
  {
    var profiles := stores.document.profiles;
    forall i | 0 <= i < |profiles| ensures profiles[i].id != "" {
      assert SavedFine(t, profiles, profiles[i]);
    }
  }

  lemma UnreadIsLost(
    t: Text, stores: Stores, p: Prepared, markLastUsed: bool, now: nat, faults: CommitFaults)
    requires faults == CommitFaults(false, false, false, false, true, false) && LosesUnread(stores, p, faults)
    ensures
      var (result, after) := CommitOn(t, stores, p, markLastUsed, now, faults);
      result == Failure(SaveFailed) && p.profile.id !in after.keychain
  {
  }

  /** The failing input: a new profile with a password to save, prepared under an identifier the
      keychain has an entry for. When saving fails that entry is gone, although it was put back
      as far as it was known. */
  lemma FailedCommitLosesEntry(t: Text, stores: Stores, draft: Draft, id: string, markLastUsed: bool, now: nat)
    requires DocumentValid(t, stores.document) && draft.id == "" && draft.password != ""
    requires Validated(t, draft, stores.document.profiles).Success?
    requires Validated(t, draft, stores.document.profiles).value.savePassword
    requires Validated(t, draft, stores.document.profiles).value.id == ""
    requires id != "" && id in stores.keychain
    ensures
      var prepared := PrepareOn(t, stores, draft, PrepareFaults(false, Some(id), false));
      var faults := CommitFaults(false, false, false, false, true, false);
      prepared.Success? && LosesUnread(stores, prepared.value, faults) &&
      var (result, after) := CommitOn(t, stores, prepared.value, markLastUsed, now, faults);
      result == Failure(SaveFailed) && id !in after.keychain
  {
    var faults := CommitFaults(false, false, false, false, true, false);
    NewProfilePrepared(t, stores, draft, id);
    UnreadIsLost(t, stores, PrepareOn(t, stores, draft, PrepareFaults(false, Some(id), false)).value,
                 markLastUsed, now, faults);
  }

  /** A delete that returns an error changes nothing, given that compensation succeeds. */
  lemma FailedDeleteChangesNothing(t: Text, stores: Stores, id: string, faults: DeleteFaults)
    requires DeleteOn(t, stores, id, faults).0.Some? && !faults.restore
    ensures DeleteOn(t, stores, id, faults).1 == stores
  {
  }

  predicate SameSecrets(before: Stores, after: Stores, id: string) {
    (id in after.keychain <==> id in before.keychain) &&
    (id in before.keychain ==> after.keychain[id] == before.keychain[id]) &&
    (id in after.session <==> id in before.session) &&
    (id in before.session ==> after.session[id] == before.session[id])
  }

  lemma HandlingTouchesOne(stores: Stores, p: Prepared, faults: CommitFaults, other: string)
    requires HandleSecret(stores, p, faults).Handled? && other != p.profile.id
    ensures
      var handled := HandleSecret(stores, p, faults);
      SameSecrets(stores, Stores(stores.document, handled.keychain, handled.session), other)
  {
  }

  /** No commit touches the secrets of another profile, whichever calls fail, compensation included. */
  lemma CommitTouchesOneProfile(
    t: Text, stores: Stores, p: Prepared, markLastUsed: bool, now: nat, faults: CommitFaults, other: string)
    requires other != p.profile.id
    ensures SameSecrets(stores, CommitOn(t, stores, p, markLastUsed, now, faults).1, other)
  {
    if HandleSecret(stores, p, faults).Handled? { HandlingTouchesOne(stores, p, faults, other); }
  }

  lemma DeleteTouchesOneProfile(t: Text, stores: Stores, id: string, faults: DeleteFaults, other: string)
    requires other != id
    ensures SameSecrets(stores, DeleteOn(t, stores, id, faults).1, other)
  {
  }

  // ----- passwords read back -----

  /** The password found for a stored profile when none is typed. */
  function Lookup(
    savePassword: bool, keychain: map<string, string>, session: map<string, string>, id: string, get: bool)
    : Option<string>
  {
    if savePassword && !get && id in keychain then Some(keychain[id])
    else if id in session then Some(session[id])
    else None
  }

  /** The keychain works in every call, or in none. */
  predicate Steady(get: bool, faults: CommitFaults) {
    faults.get == get && faults.set_ == get && faults.delete == get
  }

  /** The commit reaches the keychain and stores the password there. */
  predicate WritesKeychain(p: Prepared, faults: CommitFaults) {
    WritesSecret(p) && !(p.previous >= 0 && faults.get) && !faults.set_
  }

  /** The password prepared with is the one found the next time, if the keychain can then be
      read or not: one that went to the keychain needs it; one that came from there and stays
      needs it unless the session has the same; one from the session, of a profile that keeps
      its password in the keychain, must not be hidden by another one there. */
  predicate ReadsBack(stores: Stores, p: Prepared, faults: CommitFaults, nextGet: bool) {
    var id := p.profile.id;
    if WritesSecret(p) then WritesKeychain(p, faults) ==> !nextGet
    else if !p.profile.savePassword then true
    else if p.source == FromKeychain then nextGet ==> id in stores.session && stores.session[id] == p.password
    else !nextGet && id in stores.keychain ==> stores.keychain[id] == p.password
  }

  /** What Prepare and the document say about a prepared profile. */
  predicate PreparedFrom(stores: Stores, draft: Draft, p: Prepared, get: bool) {
    -1 <= p.previous < |stores.document.profiles| && p.document == stores.document &&
    (p.previous >= 0 ==> stores.document.profiles[p.previous].id == p.profile.id) &&
    Credential(stores, draft, p.previous, get) == Success((p.password, p.source)) && p.replace == draft.replacePassword
  }

  lemma HandledReadsBack(
    stores: Stores, draft: Draft, p: Prepared, faults: CommitFaults, get: bool, nextGet: bool)
    requires PreparedFrom(stores, draft, p, get)
    requires p.source != NoCredential && HandleSecret(stores, p, faults).Handled?
    ensures
      var handled := HandleSecret(stores, p, faults);
      Lookup(handled.savePassword, handled.keychain, handled.session, p.profile.id, nextGet) == Some(p.password) <==>
      ReadsBack(stores, p, faults, nextGet)
  {
  }

  /** With a steady keychain the condition is met. */
  lemma SteadyReadsBack(stores: Stores, draft: Draft, p: Prepared, faults: CommitFaults, get: bool)
    requires PreparedFrom(stores, draft, p, get) && p.source != NoCredential && Steady(get, faults)
    ensures ReadsBack(stores, p, faults, get)
  {
  }

  lemma StoredProfileIsFound(profiles: seq<Profile>, previous: int, p: Profile)
    requires -1 <= previous < |profiles| && DistinctIds(Put(profiles, previous, p))
    ensures
      var after := Put(profiles, previous, p);
      var at := IndexOf(after, p.id, 0);
      at >= 0 && after[at] == p
  {
    var after := Put(profiles, previous, p);
    var place := if previous >= 0 then previous else |profiles|;
    assert after[place] == p;
    var at := IndexOf(after, p.id, 0);
    assert at == place;
  }

  lemma PreparedFacts(t: Text, stores: Stores, draft: Draft, faults: PrepareFaults)
    requires PrepareOn(t, stores, draft, faults).Success?
    ensures
      var p := PrepareOn(t, stores, draft, faults).value;
      p.document == stores.document && p.draftId == p.profile.id && p.replace == draft.replacePassword &&
      p.previous == IndexOf(stores.document.profiles, draft.id, 0) && (p.previous == -1 ==> draft.id == "") &&
      Credential(stores, draft, p.previous, faults.get) == Success((p.password, p.source))
  {
  }

  /** The profile prepared for a draft: its canonical form, identified, with what the one before
      had beyond it. */
  ghost predicate IsPreparedFor(t: Text, draft: Draft, newId: Option<string>, profiles: seq<Profile>, p: Prepared) {
    var v := Validated(t, draft, profiles);
    v.Success? && p.previous < |profiles| && (p.previous >= 0 ==> p.profile.id == draft.id) &&
    Bare(p.profile) == v.value.(id := p.profile.id) &&
    (p.profile.id == draft.id || Some(p.profile.id) == newId) &&
    p.profile.unknown == if p.previous >= 0 then profiles[p.previous].unknown else {}
  }

  lemma PreparedProfile(t: Text, stores: Stores, draft: Draft, faults: PrepareFaults)
    requires DocumentValid(t, stores.document) && PrepareOn(t, stores, draft, faults).Success?
    ensures IsPreparedFor(t, draft, faults.newId, stores.document.profiles, PrepareOn(t, stores, draft, faults).value)
  {
    var previous := IndexOf(stores.document.profiles, draft.id, 0);
    if previous >= 0 { assert SavedFine(t, stores.document.profiles, stores.document.profiles[previous]); }
    IdentifiedFacts(Validated(t, draft, stores.document.profiles).value, faults.newId, stores.document.profiles,
      previous);
  }

  lemma IdentifiedFacts(v: Profile, newId: Option<string>, profiles: seq<Profile>, previous: int)
    requires previous < |profiles| && Identified(v, newId, profiles, previous).Some? && v == Bare(v)
    ensures
      var p := Identified(v, newId, profiles, previous).value;
      Bare(p) == v.(id := p.id) && (p.id == v.id || (v.id == "" && Some(p.id) == newId)) &&
      p.unknown == if previous >= 0 then profiles[previous].unknown else {}
  {
  }

  lemma CommittedFacts(t: Text, stores: Stores, p: Prepared, markLastUsed: bool, now: nat, faults: CommitFaults)
    requires CommitOn(t, stores, p, markLastUsed, now, faults).0.Success?
    ensures
      var handled := HandleSecret(stores, p, faults);
      handled.Handled? && DistinctIds(Committed(p, handled.savePassword, markLastUsed, now).profiles) &&
      CommitOn(t, stores, p, markLastUsed, now, faults).1 ==
        Stores(Committed(p, handled.savePassword, markLastUsed, now), handled.keychain, handled.session)
  {
  }

  /** Preparing a stored profile without typing a password finds what the lookup finds. */
  lemma PrepareLooksUp(t: Text, stores: Stores, draft: Draft, faults: PrepareFaults)
    requires !faults.load && !draft.replacePassword && draft.id != "" &&
      Validated(t, draft, stores.document.profiles).Success?
    requires IndexOf(stores.document.profiles, draft.id, 0) >= 0
    ensures
      var stored := stores.document.profiles[IndexOf(stores.document.profiles, draft.id, 0)];
      var found := Lookup(stored.savePassword, stores.keychain, stores.session, draft.id, faults.get);
      Found(PrepareOn(t, stores, draft, faults)) == found
  {
  }

  /** The password a profile was prepared with, if it has one. */
  function Found(prepared: Result<Prepared, ServiceError>): Option<string> {
    if prepared.Success? && prepared.value.source != NoCredential then Some(prepared.value.password) else None
  }

  lemma CommitLooksUp(
    t: Text, stores: Stores, draft: Draft, p: Prepared, markLastUsed: bool, now: nat, faults: CommitFaults, get: bool,
    nextGet: bool)
    requires PreparedFrom(stores, draft, p, get)
    requires p.source != NoCredential && CommitOn(t, stores, p, markLastUsed, now, faults).0.Success?
    ensures
      var after := CommitOn(t, stores, p, markLastUsed, now, faults).1;
      var at := IndexOf(after.document.profiles, p.profile.id, 0);
      at >= 0 && p.profile.id != "" &&
      var saved := after.document.profiles[at].savePassword;
      var found := Lookup(saved, after.keychain, after.session, p.profile.id, nextGet);
      (found == Some(p.password) <==> ReadsBack(stores, p, faults, nextGet))
  {
    var handled := HandleSecret(stores, p, faults);
    CommittedFacts(t, stores, p, markLastUsed, now, faults);
    HandledReadsBack(stores, draft, p, faults, get, nextGet);
    StoredProfileIsFound(stores.document.profiles, p.previous,
      Stamped(p.profile, handled.savePassword, markLastUsed, now));
  }

  /** After a successful commit of a prepared profile that has a password, preparing it again
      without typing one finds the same password if and only if `ReadsBack` holds, whichever
      keychain calls failed before and whether the next one does. With a keychain that works
      throughout or fails throughout it always does. */
  lemma PasswordReadsBack(t: Text, stores: Stores, draft: Draft, faults: PrepareFaults, markLastUsed: bool, now: nat,
                          commitFaults: CommitFaults, next: Draft, nextFaults: PrepareFaults)
    requires DocumentValid(t, stores.document) && PrepareOn(t, stores, draft, faults).Success?
    requires
      var p := PrepareOn(t, stores, draft, faults).value;
      p.source != NoCredential && CommitOn(t, stores, p, markLastUsed, now, commitFaults).0.Success?
    requires
      var p := PrepareOn(t, stores, draft, faults).value;
      var after := CommitOn(t, stores, p, markLastUsed, now, commitFaults).1;
      next.id == p.profile.id && !next.replacePassword && !nextFaults.load &&
      Validated(t, next, after.document.profiles).Success?
    ensures
      var p := PrepareOn(t, stores, draft, faults).value;
      var after := CommitOn(t, stores, p, markLastUsed, now, commitFaults).1;
      (Found(PrepareOn(t, after, next, nextFaults)) == Some(p.password) <==>
       ReadsBack(stores, p, commitFaults, nextFaults.get)) &&
      (Steady(faults.get, commitFaults) && nextFaults.get == faults.get ==>
         ReadsBack(stores, p, commitFaults, nextFaults.get))
  {
    var p := PrepareOn(t, stores, draft, faults).value;
    PreparedFacts(t, stores, draft, faults);
    PreparedProfile(t, stores, draft, faults);
    CommitLooksUp(t, stores, draft, p, markLastUsed, now, commitFaults, faults.get, nextFaults.get);
    PrepareLooksUp(t, CommitOn(t, stores, p, markLastUsed, now, commitFaults).1, next, nextFaults);
    if Steady(faults.get, commitFaults) { SteadyReadsBack(stores, draft, p, commitFaults, faults.get); }
  }

  // ----- what is committed can be loaded again -----

  lemma CanonicalCarries(t: Text, v: Profile, p: Profile)
    requires IsCanonical(t, v) && Bare(p) == v.(id := p.id)
    ensures IsCanonical(t, p) && p.name == v.name
  {
  }

  lemma PreparedIsCanonical(t: Text, stores: Stores, draft: Draft, faults: PrepareFaults)
    requires Sane(t) && DocumentValid(t, stores.document) && PrepareOn(t, stores, draft, faults).Success?
    ensures IsCanonical(t, PrepareOn(t, stores, draft, faults).value.profile)
    ensures !NameTaken(t, stores.document.profiles, draft.id, PrepareOn(t, stores, draft, faults).value.profile.name)
  {
    PreparedProfile(t, stores, draft, faults);
    AcceptedIsCanonical(t, draft, stores.document.profiles);
    CanonicalCarries(t, Validated(t, draft, stores.document.profiles).value,
      PrepareOn(t, stores, draft, faults).value.profile);
  }

  /** A generated identifier is not empty and not in use. */
  predicate FreshId(profiles: seq<Profile>, newId: Option<string>) {
    newId.Some? ==> newId.value != "" && IndexOf(profiles, newId.value, 0) == -1
  }

  lemma PreparedIsPlaced(t: Text, stores: Stores, draft: Draft, faults: PrepareFaults)
    requires DocumentValid(t, stores.document) && PrepareOn(t, stores, draft, faults).Success?
    requires FreshId(stores.document.profiles, faults.newId)
    ensures
      var p := PrepareOn(t, stores, draft, faults).value;
      var profiles := stores.document.profiles;
      PlaceOf(profiles, p.previous, p.profile.id) && p.profile.id != "" && !HasSensitive(t, p.profile.unknown) &&
      (draft.id == p.profile.id || forall i :: 0 <= i < |profiles| ==> profiles[i].id != draft.id)
  {
    var p := PrepareOn(t, stores, draft, faults).value;
    var profiles := stores.document.profiles;
    PreparedFacts(t, stores, draft, faults);
    PreparedProfile(t, stores, draft, faults);
    if p.previous >= 0 { assert SavedFine(t, profiles, profiles[p.previous]); }
  }

  /** Committing a prepared profile onto the document it was prepared on, with a new identifier
      where one was generated, yields a document the repository accepts. */
  lemma CommittedDocumentIsValid(
    t: Text, stores: Stores, draft: Draft, faults: PrepareFaults, savePassword: bool, markLastUsed: bool, now: nat)
    requires Sane(t) && DocumentValid(t, stores.document) && PrepareOn(t, stores, draft, faults).Success?
    requires FreshId(stores.document.profiles, faults.newId)
    ensures DocumentValid(t, Committed(PrepareOn(t, stores, draft, faults).value, savePassword, markLastUsed, now))
  {
    var p := PrepareOn(t, stores, draft, faults).value;
    PreparedFacts(t, stores, draft, faults);
    PreparedIsCanonical(t, stores, draft, faults);
    PreparedIsPlaced(t, stores, draft, faults);
    NewIdentifierNameFree(t, stores.document.profiles, draft.id, p.profile.id, p.profile.name);
    StampedIsValid(t, p, savePassword, markLastUsed, now);
  }

  lemma StampedIsValid(t: Text, p: Prepared, savePassword: bool, markLastUsed: bool, now: nat)
    requires Sane(t) && DocumentValid(t, p.document) && PlaceOf(p.document.profiles, p.previous, p.profile.id)
    requires IsCanonical(t, p.profile) && !NameTaken(t, p.document.profiles, p.profile.id, p.profile.name)
    requires p.profile.id != "" && !HasSensitive(t, p.profile.unknown)
    ensures DocumentValid(t, Committed(p, savePassword, markLastUsed, now))
  {
    PutKeepsDocumentValid(t, p.document, p.previous, Stamped(p.profile, savePassword, markLastUsed, now));
  }

  lemma NewIdentifierNameFree(t: Text, profiles: seq<Profile>, id: string, stored: string, name: string)
    requires !NameTaken(t, profiles, id, name) &&
      (id == stored || forall i :: 0 <= i < |profiles| ==> profiles[i].id != id)
    ensures !NameTaken(t, profiles, stored, name)
  {
  }

  lemma WithoutAt(profiles: seq<Profile>, index: nat)
    requires index < |profiles|
    ensures
      var after := Without(profiles, index);
      |after| == |profiles| - 1 &&
      (forall i :: 0 <= i < |after| ==> after[i] == profiles[if i < index then i else i + 1]) &&
      (DistinctIds(profiles) ==> DistinctIds(after))
  {
  }

  lemma StaysFine(t: Text, profiles: seq<Profile>, index: nat, q: Profile)
    requires index < |profiles| && SavedFine(t, profiles, q)
    ensures SavedFine(t, Without(profiles, index), q)
  {
    WithoutAt(profiles, index);
    AcceptedMeans(t, DraftOf(q), profiles);
    AcceptedMeans(t, DraftOf(q), Without(profiles, index));
  }

  /** Deleting a profile from a valid document keeps it valid. */
  lemma DeletedDocumentIsValid(t: Text, document: Document, index: nat)
    requires DocumentValid(t, document) && index < |document.profiles|
    ensures DocumentValid(t, document.(profiles := Without(document.profiles, index)))
  {
    var profiles, after := document.profiles, Without(document.profiles, index);
    WithoutAt(profiles, index);
    forall i | 0 <= i < |after| ensures SavedFine(t, after, after[i]) {
      assert SavedFine(t, profiles, profiles[if i < index then i else i + 1]);
      StaysFine(t, profiles, index, after[i]);
    }
  }
}
