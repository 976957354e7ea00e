/**
 * The lock screen of `LockPage` as a state machine over values. The state is what the
 * page shows and what it persists: the lock status, whether a credential is enrolled,
 * the busy flag, and the `localStorage` entries. Each handler of the page is a function
 * from the state before it runs to the state after it and the outcome the page reports
 * (by an alert). The class in module Page runs these steps on mutable objects.
 */
module LockMachine {
  import opened Wrappers
  import opened Base64
  import opened Base64Url

  /** The two `localStorage` keys the page uses. */
  const UnlockedKey: string := "app-unlocked"
  const CredentialKey: string := "app-credential-id"

  /** Size in bytes of the random challenge of every platform request (lines 56, 117). */
  const ChallengeLength: nat := 32

  datatype Status = Locked | Unlocked

  datatype PageState = PageState(status: Status, hasCredential: bool, loading: bool, items: map<string, string>)

  /**
   * What `navigator.credentials.create` gives: a credential with its raw id, a null
   * result, or a rejected promise (user cancellation, timeout, refusal).
   */
  datatype CreateResponse = NewCredential(rawId: seq<byte>) | NullCredential | CreateRejected

  /** What `navigator.credentials.get` gives: an assertion, a null result, or a rejected promise. */
  datatype GetResponse = Assertion | NullAssertion | GetRejected

  /** Why a handler gave up, as the page reports it. */
  datatype Failure = UnsupportedPlatform | NoCredential | MalformedCredentialId | PlatformRefused

  datatype Outcome = Succeeded | Failed(failure: Failure)

  /** `localStorage.getItem`: None for a key never written. */
  function Lookup(items: map<string, string>, key: string): Option<string> {
    if key in items then Some(items[key]) else None
  }

  /** `!!localStorage.getItem("app-credential-id")`: an id is stored and is not the empty string. */
  predicate HasStoredCredential(items: map<string, string>) {
    CredentialKey in items && items[CredentialKey] != ""
  }

  /** The page as mounted: the initial values of `useState` (lines 28-30). */
  function Mounted(items: map<string, string>): PageState {
    PageState(Locked, false, false, items)
  }

  /**
   * The startup effect (lines 33-40): reads the stored flag and the stored credential id.
   * It writes nothing to storage and leaves the busy flag alone; a page mounted locked and
   * not busy comes out of it in agreement with its storage.
   */
  function Load(s: PageState): (r: PageState)
    ensures r.items == s.items && r.loading == s.loading
    ensures r.status != s.status ==> r.status == Unlocked
    ensures s.status == Locked && !s.loading ==> Consistent(r)
  {
    s.(status := if Lookup(s.items, UnlockedKey) == Some("true") then Unlocked else s.status,
       hasCredential := HasStoredCredential(s.items))
  }

  /** The `finally` block of both handlers (lines 100-102, 149-151). */
  function Settle(s: PageState): PageState {
    s.(loading := false)
  }

  /**
   * `registerBiometric` (lines 45-103). `created` is None when the browser has no
   * `navigator.credentials` (lines 50-53), so that no platform call is made; otherwise
   * it is the platform's answer.
   */
  function Register(s: PageState, created: Option<CreateResponse>): (r: (PageState, Outcome))
    ensures r.0.status == s.status && !r.0.loading && r.0.hasCredential == (s.hasCredential || r.1 == Succeeded)
    ensures Lookup(r.0.items, UnlockedKey) == Lookup(s.items, UnlockedKey)
    ensures r.1 == Succeeded <==> created.Some? && created.value.NewCredential?
  {
    KeysDiffer();
    match created
    case None => (Settle(s), Failed(UnsupportedPlatform))
    case Some(NewCredential(rawId)) =>
      (Settle(s.(items := s.items[CredentialKey := UrlEncode(rawId)], hasCredential := true)), Succeeded)
    case Some(_) => (Settle(s), Failed(PlatformRefused))
  }

  /**
   * The part of `unlockWithBiometric` before the platform call (lines 111-124): the
   * raw credential id to put in `allowCredentials`, or why the handler stops first.
   */
  function UnlockRequest(items: map<string, string>): (r: Result<seq<byte>, Failure>)
    ensures r.Err? ==> r.error == NoCredential || r.error == MalformedCredentialId
    ensures r.Ok? ==> HasStoredCredential(items) && UrlDecode(items[CredentialKey]) == Some(r.value)
  {
    if !HasStoredCredential(items) then Err(NoCredential)
    else match UrlDecode(items[CredentialKey])
      case None => Err(MalformedCredentialId)
      case Some(id) => Ok(id)
  }

  /**
   * `unlockWithBiometric` (lines 106-152). `got` is None when the browser has no
   * `navigator.credentials`: the call at line 133 then throws, and the handler reports an
   * authentication failure without any request. Otherwise it is the platform's answer.
   * Neither is consulted when UnlockRequest stops the handler before the platform call.
   * Only an assertion changes the lock status, and the credential flag never changes.
   */
  function Unlock(s: PageState, got: Option<GetResponse>): (r: (PageState, Outcome))
    ensures r.0.hasCredential == s.hasCredential && !r.0.loading
    ensures r.0.status != s.status ==> r.0.status == Unlocked && got == Some(Assertion)
    ensures r.1 == Succeeded ==> Lookup(r.0.items, UnlockedKey) == Some("true")
  {
    match UnlockRequest(s.items)
    case Err(f) => (Settle(s), Failed(f))
    case Ok(_) =>
      if got == Some(Assertion) then
        (Settle(s.(status := Unlocked, items := s.items[UnlockedKey := "true"])), Succeeded)
      else
        (Settle(s), Failed(PlatformRefused))
  }

  /**
   * The relock button's `onClick` (lines 170-173): the page is locked afterwards, the
   * stored flag reads "false", so that a restart shows the page locked, and neither the
   * credential flag nor the busy flag moves.
   */
  function Relock(s: PageState): (r: PageState)
    ensures r.status == Locked && Lookup(r.items, UnlockedKey) == Some("false")
    ensures r.hasCredential == s.hasCredential && r.loading == s.loading
  {
    s.(status := Locked, items := s.items[UnlockedKey := "false"])
  }

  /**
   * The unlock button can be pressed: it is shown only on the locked screen (line 155)
   * and disabled while busy or with no credential (line 219).
   */
  predicate UnlockEnabled(s: PageState) {
    s.status == Locked && !s.loading && s.hasCredential
  }

  /** The register button can be pressed: locked screen (line 155), not busy (line 234). */
  predicate RegisterEnabled(s: PageState) {
    s.status == Locked && !s.loading
  }

  /**
   * The page at rest agrees with its storage: the credential flag matches the stored id,
   * the status matches the stored flag, and no handler is running.
   */
  predicate Consistent(s: PageState) {
    && (s.hasCredential <==> HasStoredCredential(s.items))
    && (s.status == Unlocked <==> Lookup(s.items, UnlockedKey) == Some("true"))
    && !s.loading
  }

  lemma KeysDiffer()
    ensures UnlockedKey != CredentialKey
  {
    assert UnlockedKey[4] != CredentialKey[4];
  }

  /**
   * After mounting and the startup effect the page is unlocked exactly when the stored
   * flag is the string "true", and has a credential exactly when a non-empty id is stored.
   */
  lemma StartupReadsStorage(items: map<string, string>)
    ensures var s := Load(Mounted(items));
      && (s.status == Unlocked <==> Lookup(items, UnlockedKey) == Some("true"))
      && (s.hasCredential <==> CredentialKey in items && items[CredentialKey] != "")
      && !s.loading && s.items == items
      && Consistent(s)
  {
  }

  /** A restart restores a page at rest exactly: its whole state is persisted. */
  lemma RestartRestores(s: PageState)
    requires Consistent(s)
    ensures Load(Mounted(s.items)) == s
  {
  }

  /**
   * Register never touches the lock status or the stored flag and always ends not busy.
   * It succeeds exactly on a credential; then the stored id is the encoding of its raw
   * id and nothing else in storage changes; otherwise nothing but the busy flag changes.
   */
  lemma RegisterEffect(s: PageState, created: Option<CreateResponse>)
    ensures var (r, o) := Register(s, created);
      && !r.loading && r.status == s.status
      && Lookup(r.items, UnlockedKey) == Lookup(s.items, UnlockedKey)
      && (o == Succeeded <==> created.Some? && created.value.NewCredential?)
      && (o == Succeeded ==> r.hasCredential && r.items == s.items[CredentialKey := UrlEncode(created.value.rawId)])
      && (o != Succeeded ==> r == Settle(s))
      && (created.None? ==> o == Failed(UnsupportedPlatform))
  {
    KeysDiffer();
  }

  /**
   * After registering a credential, the next unlock asks the platform for exactly that
   * credential: the stored id decodes back to the raw id (an empty raw id, which the
   * platform does not produce, is stored as "" and reads as no credential).
   */
  lemma RegisterThenUnlockRequest(s: PageState, rawId: seq<byte>)
    ensures UnlockRequest(Register(s, Some(NewCredential(rawId))).0.items)
      == if rawId == [] then Err(NoCredential) else Ok(rawId)
  {
    EncoderOutput(rawId);
    RoundTrip(rawId);
  }

  /**
   * Register keeps a page at rest consistent, except when the platform hands back an
   * empty raw id: then the flag says enrolled while the stored id is empty.
   */
  lemma RegisterConsistency(s: PageState, created: Option<CreateResponse>)
    requires Consistent(s)
    ensures Consistent(Register(s, created).0) <==> created != Some(NewCredential([]))
  {
    KeysDiffer();
    if created.Some? && created.value.NewCredential? {
      EncoderOutput(created.value.rawId);
    }
  }

  /**
   * Unlock with no stored id, or one that does not decode, stops before the platform is
   * asked. Otherwise the platform is asked for the decoded id, and the stored id itself
   * decodes to it.
   */
  lemma UnlockRequestCases(items: map<string, string>)
    ensures UnlockRequest(items) == Err(NoCredential) <==> !HasStoredCredential(items)
    ensures UnlockRequest(items) == Err(MalformedCredentialId)
      <==> HasStoredCredential(items) && UrlDecode(items[CredentialKey]).None?
    ensures UnlockRequest(items).Ok? ==> UrlDecode(items[CredentialKey]) == Some(UnlockRequest(items).value)
  {
  }

  /**
   * Unlock succeeds exactly when the platform was asked and answered with a non-null
   * assertion; then the page is unlocked and the stored flag is "true". Every other
   * way out changes nothing but the busy flag. The credential flag never changes.
   */
  lemma UnlockEffect(s: PageState, got: Option<GetResponse>)
    ensures var (r, o) := Unlock(s, got);
      && !r.loading && r.hasCredential == s.hasCredential
      && (o == Succeeded <==> UnlockRequest(s.items).Ok? && got == Some(Assertion))
      && (o == Succeeded ==> r.status == Unlocked && r.items == s.items[UnlockedKey := "true"])
      && (o != Succeeded ==> r == Settle(s))
      && (UnlockRequest(s.items).Err? ==> o == Failed(UnlockRequest(s.items).error))
  {
  }

  /** A locked page becomes unlocked only through an assertion for a stored credential. */
  lemma UnlockNeedsAssertion(s: PageState, got: Option<GetResponse>)
    ensures s.status == Locked && Unlock(s, got).0.status == Unlocked
      ==> HasStoredCredential(s.items) && got == Some(Assertion)
  {
  }

  lemma UnlockConsistency(s: PageState, got: Option<GetResponse>)
    requires Consistent(s)
    ensures Consistent(Unlock(s, got).0)
  {
    KeysDiffer();
  }

  /** A successful unlock is persisted: a restart afterwards shows the page unlocked. */
  lemma UnlockSurvivesRestart(s: PageState)
    ensures UnlockRequest(s.items).Ok? ==> Load(Mounted(Unlock(s, Some(Assertion)).0.items)).status == Unlocked
  {
  }

  /**
   * Relock locks the page and stores "false", touches no other entry and no other part
   * of the state, and is idempotent.
   */
  lemma RelockEffect(s: PageState)
    ensures var r := Relock(s);
      && r.status == Locked && Lookup(r.items, UnlockedKey) == Some("false")
      && r.hasCredential == s.hasCredential && r.loading == s.loading
      && (forall k :: k != UnlockedKey ==> Lookup(r.items, k) == Lookup(s.items, k))
      && Relock(r) == r
  {
  }

  /** Relock keeps a page at rest consistent, and a restart afterwards shows it locked. */
  lemma RelockConsistency(s: PageState)
    requires Consistent(s)
    ensures Consistent(Relock(s))
    ensures Load(Mounted(Relock(s).items)).status == Locked
  {
    KeysDiffer();
  }

  /**
   * On a locked page at rest, the unlock button is enabled exactly when the handler would
   * find a stored credential id.
   */
  lemma UnlockButtonMatchesGuard(s: PageState)
    requires Consistent(s) && s.status == Locked
    ensures UnlockEnabled(s) <==> UnlockRequest(s.items) != Err(NoCredential)
  {
  }

  /** Every handler leaves the page not busy, so the locked screen's register button is enabled again. */
  lemma HandlersReenableControls(s: PageState, created: Option<CreateResponse>, got: Option<GetResponse>)
    ensures var r := Register(s, created).0; RegisterEnabled(r) <==> r.status == Locked
    ensures var r := Unlock(s, got).0; RegisterEnabled(r) <==> r.status == Locked
    ensures var r := Unlock(s, got).0; UnlockEnabled(r) <==> r.status == Locked && r.hasCredential
  {
  }

  /**
   * The enrol, unlock, relock walk-through: from a fresh device, enrolling the credential
   * 0xA1B2 leaves the page locked with a credential; an assertion unlocks it and stores
   * "true"; relocking locks it and stores "false".
   */
  lemma EnrolUnlockRelock()
    ensures var s0 := Load(Mounted(map[]));
      var (s1, o1) := Register(s0, Some(NewCredential([0xA1, 0xB2])));
      var (s2, o2) := Unlock(s1, Some(Assertion));
      var s3 := Relock(s2);
      && s0.status == Locked && !s0.hasCredential
      && o1 == Succeeded && s1.hasCredential && s1.status == Locked
      && o2 == Succeeded && s2.status == Unlocked && Lookup(s2.items, UnlockedKey) == Some("true")
      && s3.status == Locked && Lookup(s3.items, UnlockedKey) == Some("false")
  {
    var s0 := Load(Mounted(map[]));
    RegisterThenUnlockRequest(s0, [0xA1, 0xB2]);
  }
}
