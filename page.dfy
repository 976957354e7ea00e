/**
 * `LockPage` as the page runs it: React state held in fields that the handlers update,
 * `localStorage` as an object that outlives the page, and the WebAuthn platform as an
 * object whose answers are left open. Each handler is one step; every method is tied to
 * the step of module LockMachine that specifies it.
 */
module Page {
  import opened Wrappers
  import opened Base64
  import opened Base64Url
  import opened LockMachine

  /** One request to the platform and the answer it gave. */
  datatype Call =
    | CreateCall(challenge: seq<byte>, created: CreateResponse)
    | GetCall(challenge: seq<byte>, allowId: seq<byte>, got: GetResponse)

  /** `window.localStorage`: a string-keyed store that survives restarts of the page. */
  class LocalStorage {
    var items: map<string, string>

    constructor (initial: map<string, string>)
      ensures items == initial
    {
      items := initial;
    }

    function GetItem(key: string): Option<string>
      reads this
    {
      Lookup(items, key)
    }

    method SetItem(key: string, value: string)
      modifies this
      ensures items == old(items)[key := value]
    {
      items := items[key := value];
    }
  }

  /**
   * `navigator.credentials`. `available` is whether the browser has it at all. Its
   * answers are chosen freely; `calls` records every request made and its answer.
   */
  class Authenticator {
    const available: bool
    ghost var calls: seq<Call>

    constructor (available: bool)
      ensures this.available == available && calls == []
    {
      this.available := available;
      calls := [];
    }

    /** `navigator.credentials.create` (lines 84-86). */
    method Create(challenge: seq<byte>) returns (created: CreateResponse)
      modifies this
      ensures calls == old(calls) + [CreateCall(challenge, created)]
    {
      created := *;
      calls := calls + [CreateCall(challenge, created)];
    }

    /** `navigator.credentials.get` with one allowed credential (lines 133-135). */
    method Get(challenge: seq<byte>, allowId: seq<byte>) returns (got: GetResponse)
      modifies this
      ensures calls == old(calls) + [GetCall(challenge, allowId, got)]
    {
      got := *;
      calls := calls + [GetCall(challenge, allowId, got)];
    }
  }

  /** `window.crypto.getRandomValues`: overwrites every element with a value left open. */
  method GetRandomValues(a: array<byte>)
    modifies a
  {
    for i := 0 to a.Length {
      var x: byte := *;
      a[i] := x;
    }
  }

  class LockPage {
    var status: Status
    var hasCredential: bool
    var loading: bool
    const storage: LocalStorage
    const authenticator: Authenticator

    /** The page's state as module LockMachine sees it. */
    function View(): PageState
      reads this, storage
    {
      PageState(status, hasCredential, loading, storage.items)
    }

    /** Mounting the page: the initial values of `useState` (lines 28-30). */
    constructor (storage: LocalStorage, authenticator: Authenticator)
      ensures this.storage == storage && this.authenticator == authenticator
      ensures View() == Mounted(storage.items)
    {
      status := Locked;
      hasCredential := false;
      loading := false;
      this.storage := storage;
      this.authenticator := authenticator;
    }

    /** The startup effect (lines 33-40). */
    method LoadStoredState()
      modifies this
      ensures View() == Load(old(View()))
    {
      var unlocked := storage.GetItem(UnlockedKey);
      if unlocked == Some("true") {
        status := Unlocked;
      }
      var credId := storage.GetItem(CredentialKey);
      hasCredential := credId.Some? && credId.value != "";
    }

    /**
     * The effect of `registerBiometric`: with no platform, no request and the
     * unsupported-platform failure; otherwise exactly one creation request with a fresh
     * 32-byte challenge, and the step Register for the platform's answer.
     */
    twostate predicate RegisterDone(outcome: Outcome)
      reads this, storage, authenticator
    {
      var n := |old(authenticator.calls)|;
      if !authenticator.available then
        && authenticator.calls == old(authenticator.calls)
        && (View(), outcome) == Register(old(View()), None)
      else
        && |authenticator.calls| == n + 1
        && authenticator.calls[..n] == old(authenticator.calls)
        && authenticator.calls[n].CreateCall?
        && |authenticator.calls[n].challenge| == ChallengeLength
        && (View(), outcome) == Register(old(View()), Some(authenticator.calls[n].created))
    }

    /**
     * The effect of `unlockWithBiometric`: when UnlockRequest stops the handler, no
     * request and that failure; with no platform, no request and the step Unlock for no
     * answer; otherwise exactly one assertion request for the decoded stored id with a
     * fresh 32-byte challenge, and the step Unlock for the platform's answer.
     */
    twostate predicate UnlockDone(outcome: Outcome)
      reads this, storage, authenticator
    {
      var n := |old(authenticator.calls)|;
      match UnlockRequest(old(storage.items))
      case Err(f) =>
        && authenticator.calls == old(authenticator.calls)
        && View() == Settle(old(View())) && outcome == Failed(f)
      case Ok(id) =>
        if !authenticator.available then
          && authenticator.calls == old(authenticator.calls)
          && (View(), outcome) == Unlock(old(View()), None)
        else
          && |authenticator.calls| == n + 1
          && authenticator.calls[..n] == old(authenticator.calls)
          && authenticator.calls[n].GetCall?
          && authenticator.calls[n].allowId == id
          && |authenticator.calls[n].challenge| == ChallengeLength
          && (View(), outcome) == Unlock(old(View()), Some(authenticator.calls[n].got))
    }

    /** `registerBiometric` (lines 45-103). */
    method RegisterBiometric() returns (outcome: Outcome)
      modifies this, storage, authenticator
      ensures RegisterDone(outcome)
    {
      loading := true;
      if !authenticator.available {
        loading := false;
        return Failed(UnsupportedPlatform);
      }
      var challenge := new byte[ChallengeLength];
      GetRandomValues(challenge);
      var created := authenticator.Create(challenge[..]);
      if !created.NewCredential? {
        loading := false;
        return Failed(PlatformRefused);
      }
      var credId := BufToBase64Url(created.rawId);
      storage.SetItem(CredentialKey, credId);
      hasCredential := true;
      loading := false;
      outcome := Succeeded;
    }

    /** `unlockWithBiometric` (lines 106-152). */
    method UnlockWithBiometric() returns (outcome: Outcome)
      modifies this, storage, authenticator
      ensures UnlockDone(outcome)
    {
      loading := true;
      var credId := storage.GetItem(CredentialKey);
      if credId.None? || credId.value == "" {
        loading := false;
        return Failed(NoCredential);
      }
      var challenge := new byte[ChallengeLength];
      GetRandomValues(challenge);
      var allowId := Base64UrlToBuf(credId.value);
      if allowId.None? {
        loading := false;
        return Failed(MalformedCredentialId);
      }
      if !authenticator.available {
        loading := false;
        return Failed(PlatformRefused);
      }
      var got := authenticator.Get(challenge[..], allowId.value);
      if got != Assertion {
        loading := false;
        return Failed(PlatformRefused);
      }
      status := Unlocked;
      storage.SetItem(UnlockedKey, "true");
      loading := false;
      outcome := Succeeded;
    }

    /** The relock button's `onClick` (lines 170-173). */
    method Relock()
      modifies this, storage
      ensures View() == LockMachine.Relock(old(View()))
    {
      status := Locked;
      storage.SetItem(UnlockedKey, "false");
    }

    /** A click on the relock button, which is shown only on the unlocked screen (lines 155-169). */
    method ClickRelock()
      modifies this, storage
      ensures old(View().status) == Unlocked ==> View() == LockMachine.Relock(old(View()))
      ensures old(View().status) != Unlocked ==> unchanged(this, storage)
    {
      if status == Unlocked {
        Relock();
      }
    }

    /** A click on the unlock button, which does nothing while the button is disabled (line 219). */
    method ClickUnlock() returns (outcome: Option<Outcome>)
      modifies this, storage, authenticator
      ensures old(UnlockEnabled(View())) ==> outcome.Some? && UnlockDone(outcome.value)
      ensures !old(UnlockEnabled(View())) ==> outcome == None && unchanged(this, storage, authenticator)
    {
      if UnlockEnabled(View()) {
        var o := UnlockWithBiometric();
        outcome := Some(o);
      } else {
        outcome := None;
      }
    }

    /** A click on the register button, which does nothing while the button is disabled (line 234). */
    method ClickRegister() returns (outcome: Option<Outcome>)
      modifies this, storage, authenticator
      ensures old(RegisterEnabled(View())) ==> outcome.Some? && RegisterDone(outcome.value)
      ensures !old(RegisterEnabled(View())) ==> outcome == None && unchanged(this, storage, authenticator)
    {
      if RegisterEnabled(View()) {
        var o := RegisterBiometric();
        outcome := Some(o);
      } else {
        outcome := None;
      }
    }
  }

  /** A restart of the page on the same storage: mounting, then the startup effect. */
  method Restart(storage: LocalStorage, authenticator: Authenticator) returns (page: LockPage)
    ensures fresh(page) && page.storage == storage && page.authenticator == authenticator
    ensures page.View() == Load(Mounted(storage.items))
  {
    page := new LockPage(storage, authenticator);
    page.LoadStoredState();
  }
}
