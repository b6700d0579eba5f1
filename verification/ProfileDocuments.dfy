/** Which profile documents the repository loads and saves. */
module ProfileDocuments {
  import opened Relations
  import opened Decimals
  import opened Profiles

  const SENSITIVE := {"password", "passfile", "connection_url", "original_url", "secret"}

  predicate HasSensitive(t: Text, names: set<string>) {
    exists name :: name in names && Lower(t, Trim(t, name)) in SENSITIVE
  }

  /** A saved profile that is acceptable on its own and beside the others. */
  ghost predicate SavedFine(t: Text, profiles: seq<Profile>, p: Profile) {
    p.id != "" && !HasSensitive(t, p.unknown) && Validated(t, DraftOf(p), profiles).Success?
  }

  ghost predicate DistinctIds(profiles: seq<Profile>) {
    forall i, j :: 0 <= i < j < |profiles| ==> profiles[i].id != profiles[j].id
  }

  ghost predicate DocumentValid(t: Text, document: Document) {
    !HasSensitive(t, document.unknown) && DistinctIds(document.profiles) &&
    forall i :: 0 <= i < |document.profiles| ==> SavedFine(t, document.profiles, document.profiles[i])
  }

  method HasSensitiveUnknownField(t: Text, names: set<string>) returns (found: bool)
    ensures found == HasSensitive(t, names)
  {
    var rest := names;
    while rest != {}
      invariant rest <= names && forall name :: name in names - rest ==> Lower(t, Trim(t, name)) !in SENSITIVE
      decreases |rest|
    {
      var name :| name in rest;
      if Lower(t, Trim(t, name)) in SENSITIVE {
        return true;
      }
      rest := rest - {name};
    }
    return false;
  }

  method CheckSaved(t: Text, document: Document, saved: Profile) returns (ok: bool)
    ensures ok == SavedFine(t, document.profiles, saved)
  {
    if saved.id == "" {
      return false;
    }
    var sensitive := HasSensitiveUnknownField(t, saved.unknown);
    if sensitive {
      return false;
    }
    var draft := DraftFromProfile(saved);
    var validated := ValidateDraft(t, draft, document);
    return validated.Success?;
  }

  method CheckIdentifiers(profiles: seq<Profile>) returns (ok: bool)
    ensures ok == DistinctIds(profiles)
  {
    var identifiers: set<string> := {};
    for k := 0 to |profiles|
      invariant forall i, j :: 0 <= i < j < k ==> profiles[i].id != profiles[j].id
      invariant forall i :: 0 <= i < k ==> profiles[i].id in identifiers
      invariant forall id :: id in identifiers ==> exists i :: 0 <= i < k && profiles[i].id == id
    {
      if profiles[k].id in identifiers {
        return false;
      }
      identifiers := identifiers + {profiles[k].id};
    }
    return true;
  }

  /** Identifiers present and distinct, no secret among the unknown fields, every profile acceptable. */
  method ValidateProfileDocument(t: Text, document: Document) returns (ok: bool)
    ensures ok == DocumentValid(t, document)
  {
    var sensitive := HasSensitiveUnknownField(t, document.unknown);
    var distinct := CheckIdentifiers(document.profiles);
    if sensitive || !distinct {
      return false;
    }
    for k := 0 to |document.profiles|
      invariant forall i :: 0 <= i < k ==> SavedFine(t, document.profiles, document.profiles[i])
    {
      var fine := CheckSaved(t, document, document.profiles[k]);
      if !fine {
        return false;
      }
    }
    return true;
  }

  // ----- what a valid document guarantees -----

  lemma FoldEqualSymmetric(t: Text, a: string, b: string)
    ensures FoldEqual(t, a, b) <==> FoldEqual(t, b, a)
  {
  }

  /** In a valid document no two profiles share an identifier or, ignoring case and
      surrounding spaces, a name. */
  lemma ValidDocumentHasUniqueNames(t: Text, document: Document, i: nat, j: nat)
    requires DocumentValid(t, document) && i < j < |document.profiles|
    ensures document.profiles[i].id != document.profiles[j].id
    ensures !FoldEqual(t, Trim(t, document.profiles[i].name), Trim(t, document.profiles[j].name))
  {
  }

  // ----- storing an accepted profile keeps the document valid -----

  /** The document with a profile replaced, or appended when there is no previous one. */
  function Put(profiles: seq<Profile>, previous: int, p: Profile): seq<Profile> {
    if 0 <= previous < |profiles| then profiles[previous := p] else profiles + [p]
  }

  /** The profile's place: that of the one with its identifier, or none if the identifier is new. */
  ghost predicate PlaceOf(profiles: seq<Profile>, previous: int, id: string) {
    -1 <= previous < |profiles| && (previous >= 0 ==> profiles[previous].id == id) &&
    (previous == -1 ==> forall i :: 0 <= i < |profiles| ==> profiles[i].id != id)
  }

  /** A name nobody else has stays free when a profile with another name is stored. */
  lemma NameStaysFree(t: Text, profiles: seq<Profile>, previous: int, p: Profile, id: string, name: string)
    requires PlaceOf(profiles, previous, p.id) && !NameTaken(t, profiles, id, name)
    requires id != p.id ==> !FoldEqual(t, Trim(t, p.name), name)
    ensures !NameTaken(t, Put(profiles, previous, p), id, name)
  {
  }

  lemma OthersStayAccepted(t: Text, profiles: seq<Profile>, previous: int, p: Profile, k: nat)
    requires Sane(t) && PlaceOf(profiles, previous, p.id) && IsCanonical(t, p) && !NameTaken(t, profiles, p.id, p.name)
    requires k < |profiles| && profiles[k].id != p.id && SavedFine(t, profiles, profiles[k])
    ensures SavedFine(t, Put(profiles, previous, p), profiles[k])
  {
    var q := profiles[k];
    AcceptedMeans(t, DraftOf(q), profiles);
    AcceptedMeans(t, DraftOf(q), Put(profiles, previous, p));
    TrimmedStays(t, p.name);
    FoldEqualSymmetric(t, Trim(t, q.name), p.name);
    NameStaysFree(t, profiles, previous, p, q.id, Trim(t, q.name));
  }

  lemma StoredIsAccepted(t: Text, profiles: seq<Profile>, previous: int, p: Profile)
    requires Sane(t) && PlaceOf(profiles, previous, p.id) && IsCanonical(t, p) && !NameTaken(t, profiles, p.id, p.name)
    requires p.id != "" && !HasSensitive(t, p.unknown)
    ensures SavedFine(t, Put(profiles, previous, p), p)
  {
    NameStaysFree(t, profiles, previous, p, p.id, p.name);
    CanonicalIsAccepted(t, p, Put(profiles, previous, p));
  }

  lemma PutKeepsIdsDistinct(profiles: seq<Profile>, previous: int, p: Profile)
    requires DistinctIds(profiles) && PlaceOf(profiles, previous, p.id)
    ensures DistinctIds(Put(profiles, previous, p))
  {
  }

  /** Storing a canonical profile with a free name in a valid document keeps it valid. */
  lemma PutKeepsDocumentValid(t: Text, document: Document, previous: int, p: Profile)
    requires Sane(t) && DocumentValid(t, document) && PlaceOf(document.profiles, previous, p.id)
    requires IsCanonical(t, p) && !NameTaken(t, document.profiles, p.id, p.name)
    requires p.id != "" && !HasSensitive(t, p.unknown)
    ensures DocumentValid(t, document.(profiles := Put(document.profiles, previous, p)))
  {
    var profiles := document.profiles;
    var after := Put(profiles, previous, p);
    PutKeepsIdsDistinct(profiles, previous, p);
    forall i | 0 <= i < |after| ensures SavedFine(t, after, after[i]) {
      if i == previous || i == |profiles| {
        StoredIsAccepted(t, profiles, previous, p);
      } else {
        assert after[i] == profiles[i] && SavedFine(t, profiles, profiles[i]);
        if previous >= 0 {
          if i < previous { assert profiles[i].id != profiles[previous].id; }
          else { assert profiles[previous].id != profiles[i].id; }
        }
        OthersStayAccepted(t, profiles, previous, p, i);
      }
    }
  }
}
