/** The profile service as the object it is, refining the store functions. */
module ProfileService {
  import opened Relations
  import opened Profiles
  import opened ProfileDocuments
  import opened Credentials

  datatype Secret = Found(secret: string) | Missing | Unavailable

  class Service {
    const text: Text
    var document: Document
    var keychain: map<string, string>
    var session: map<string, string>

    function State(): Stores
      reads this
    {
      Stores(document, keychain, session)
    }

    constructor (text: Text, document: Document, keychain: map<string, string>)
      ensures State() == Stores(document, keychain, map[]) && this.text == text
    {
      this.text := text;
      this.document, this.keychain, session := document, keychain, map[];
    }

    // ----- the stores, each call of which may fail without effect -----

    method GetSecret(id: string, fails: bool) returns (r: Secret)
      ensures r == if fails then Unavailable else if id in keychain then Found(keychain[id]) else Missing
    {
      if fails {
        return Unavailable;
      }
      if id in keychain {
        return Found(keychain[id]);
      }
      return Missing;
    }

    method SetSecret(id: string, secret: string, fails: bool)
      modifies this`keychain
      ensures keychain == if fails then old(keychain) else old(keychain)[id := secret]
    {
      if !fails {
        keychain := keychain[id := secret];
      }
    }

    /** Deleting a missing entry is not an error to the callers. */
    method DeleteSecret(id: string, fails: bool)
      modifies this`keychain
      ensures keychain == if fails then old(keychain) else old(keychain) - {id}
    {
      if !fails {
        keychain := keychain - {id};
      }
    }

    /** The repository writes only documents it would load again. */
    method SaveDocument(changed: Document, fails: bool) returns (ok: bool)
      modifies this`document
      ensures ok == (!fails && Storable(text, changed))
      ensures document == if ok then changed else old(document)
    {
      if fails || changed.version != 1 {
        return false;
      }
      ok := ValidateProfileDocument(text, changed);
      if ok {
        document := changed;
      }
    }

    method RestoreSecret(id: string, secret: Secret, fails: bool)
      modifies this`keychain
      ensures keychain == if fails then old(keychain)
                          else if secret.Found? then old(keychain)[id := secret.secret] else old(keychain) - {id}
    {
      if secret.Found? {
        SetSecret(id, secret.secret, fails);
        return;
      }
      DeleteSecret(id, fails);
    }

    method RestoreSessionSecret(id: string, before: map<string, string>)
      modifies this`session
      ensures session == RestoredSession(before, old(session), id)
    {
      if id in before {
        session := session[id := before[id]];
      } else {
        session := session - {id};
      }
    }

    method FindProfile(id: string) returns (index: int)
      ensures index == IndexOf(document.profiles, id, 0)
    {
      for i := 0 to |document.profiles|
        invariant IndexOf(document.profiles, id, 0) == IndexOf(document.profiles, id, i)
      {
        if document.profiles[i].id == id {
          return i;
        }
      }
      return -1;
    }

    // ----- operations -----

    method FindCredential(
      draft: Draft, previous: int, getFails: bool) returns (r: Result<(string, Source), ServiceError>)
      requires previous < |document.profiles|
      ensures r == Credential(State(), draft, previous, getFails)
    {
      if draft.replacePassword || (previous < 0 && draft.password != "") {
        return Success((draft.password, FromInput));
      }
      if previous < 0 {
        return Success(("", NoCredential));
      }
      var prior := document.profiles[previous];
      if prior.savePassword {
        var secret := GetSecret(prior.id, getFails);
        match secret {
          case Found(password) => return Success((password, FromKeychain));
          case Missing =>
          case Unavailable =>
            if prior.id in session {
              return Success((session[prior.id], FromSession));
            }
            return Failure(KeychainUnavailable);
        }
      }
      if prior.id in session {
        return Success((session[prior.id], FromSession));
      }
      return Success(("", NoCredential));
    }

    method Prepare(draft: Draft, faults: PrepareFaults) returns (r: Result<Prepared, ServiceError>)
      ensures r == PrepareOn(text, State(), draft, faults)
    {
      if faults.load {
        return Failure(LoadFailed);
      }
      var previous := FindProfile(draft.id);
      if draft.id != "" && previous == -1 {
        return Failure(ProfileGone);
      }
      var validated := ValidateDraft(text, draft, document);
      if validated.Failure? {
        return Failure(Invalid(validated.error));
      }
      var saved := validated.value;
      if saved.id == "" {
        if faults.newId.None? {
          return Failure(NoIdentifier);
        }
        saved := saved.(id := faults.newId.value);
      }
      if previous >= 0 {
        var prior := document.profiles[previous];
        saved := saved.(createdAt := prior.createdAt, updatedAt := prior.updatedAt, lastUsedAt := prior.lastUsedAt,
                        unknown := prior.unknown);
      }
      var credential := FindCredential(draft, previous, faults.get);
      if credential.Failure? {
        return Failure(credential.error);
      }
      return Success(Prepared(saved, credential.value.0, credential.value.1, draft.replacePassword, saved.id,
        document, previous));
    }

    /** The credential part of a commit, carried out on keychain and session. */
    method ChangeSecret(p: Prepared, secret: Secret, faults: CommitFaults)
      returns (refused: bool, savePassword: bool, mode: Source, mutated: bool)
      requires (WritesSecret(p) || DeletesSecret(p)) && p.previous >= 0 ==> (secret.Unavailable? <==> faults.get)
      modifies this`keychain, this`session
      ensures
        var handled := HandleSecret(old(State()), p, faults);
        if refused then handled.Refused? && State() == old(State())
        else handled == Handled(keychain, session, savePassword, mode, mutated)
    {
      var id := p.profile.id;
      refused, savePassword, mode, mutated := false, p.profile.savePassword, p.source, false;
      if WritesSecret(p) {
        if p.previous >= 0 && secret.Unavailable? {
          savePassword, mode := false, FromSession;
          session := session[id := p.password];
          return;
        }
        SetSecret(id, p.password, faults.set_);
        if faults.set_ {
          savePassword, mode := false, FromSession;
          session := session[id := p.password];
        } else {
          mode, mutated := FromKeychain, true;
          session := session - {id};
        }
      } else if DeletesSecret(p) {
        if secret.Unavailable? {
          refused := true;
          return;
        }
        DeleteSecret(id, faults.delete);
        if faults.delete {
          refused := true;
          return;
        }
        mutated := true;
        if p.source != NoCredential {
          mode := FromSession;
          session := session[id := p.password];
        } else {
          mode := NoCredential;
          session := session - {id};
        }
      } else if !p.profile.savePassword {
        if p.source != NoCredential {
          mode := FromSession;
          session := session[id := p.password];
        } else {
          mode := NoCredential;
        }
      } else if PreviouslySaved(p) || p.source == FromKeychain {
        mode := FromKeychain;
      } else if p.source == FromSession {
        mode := FromSession;
      } else {
        mode := NoCredential;
      }
    }

    method Commit(
      p: Prepared, markLastUsed: bool, now: nat, faults: CommitFaults) returns (r: Result<Saved, ServiceError>)
      modifies this
      ensures (r, State()) == CommitOn(text, old(State()), p, markLastUsed, now, faults)
    {
      if faults.cancelled {
        return Failure(Cancelled);
      }
      var id := p.profile.id;
      if id == "" || p.draftId != id {
        return Failure(NotPrepared);
      }
      var oldSession := session;
      var secret := Missing;
      if (WritesSecret(p) || DeletesSecret(p)) && p.previous >= 0 {
        secret := GetSecret(id, faults.get);
      }
      var refused, savePassword, mode, mutated := ChangeSecret(p, secret, faults);
      if refused {
        return Failure(KeychainUnavailable);
      }
      var stored := Stamped(p.profile, savePassword, markLastUsed, now);
      var changed := p.document.(version := if p.document.version == 0 then 1 else p.document.version,
                                 profiles := Put(p.document.profiles, p.previous, stored));
      var ok := SaveDocument(changed, faults.save);
      if !ok {
        if mutated {
          RestoreSecret(id, secret, faults.restore);
        }
        RestoreSessionSecret(id, oldSession);
        return Failure(SaveFailed);
      }
      return Success(Saved(stored, mode));
    }

    method Delete(id: string, faults: DeleteFaults) returns (error: Option<ServiceError>)
      modifies this
      ensures (error, State()) == DeleteOn(text, old(State()), id, faults)
    {
      if faults.load {
        return Some(LoadFailed);
      }
      var index := FindProfile(id);
      if index == -1 {
        return Some(ProfileGone);
      }
      var secret := GetSecret(id, faults.get);
      if secret.Unavailable? {
        return Some(KeychainUnavailable);
      }
      DeleteSecret(id, faults.delete);
      if faults.delete {
        return Some(KeychainUnavailable);
      }
      var changed := document.(profiles := document.profiles[..index] + document.profiles[index + 1..]);
      var ok := SaveDocument(changed, faults.save);
      if !ok {
        RestoreSecret(id, secret, faults.restore);
        return Some(SaveFailed);
      }
      session := session - {id};
      return None;
    }
  }
}
