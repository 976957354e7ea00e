# Device-local biometric lock screen: a Dafny model

This project models the core of the `LockPage` component of a progressive web app
that hides its content behind a platform biometric or PIN check (a WebAuthn passkey
bound to the device). The model covers two parts of `app/page.js`:

- **The base64url codec** `bufToBase64Url` / `base64UrlToBuf`, which turns the raw id
  of a WebAuthn credential into the text kept in `localStorage` and back. The
  encoder is standard base64 (section 4 of RFC 4648, the browser's `btoa`), rewritten
  into the URL- and filename-safe alphabet of section 5 of RFC 4648, without padding
  (section 3.2 of RFC 4648). The decoder re-pads and calls `atob`, which follows the
  forgiving-base64 decode of the WHATWG Infra Standard.
- **The lock state machine**: the `status` (locked or unlocked), `hasCredential` and
  `loading` state, the two `localStorage` entries `app-unlocked` and
  `app-credential-id`, the startup effect, registration, unlocking, relocking, and the
  `disabled` guards of the two buttons on the locked screen.

Modules:

- `Wrappers` (`wrappers.dfy`): `Option` and `Result`.
- `Base64` (`base64.dfy`): the RFC 4648 alphabet, the 6-bit groups, `btoa` and `atob`
  as functions over binary strings, and the proof that decoding the groups of any
  byte sequence gives the bytes back.
- `Base64Url` (`base64url.dfy`): the two source functions as methods with their
  loops (building the binary string, filling the `Uint8Array`), each proved against a
  specification function (`UrlEncode`, `UrlDecode`), plus the round trip, the
  alphabet and length of the encoder's output, and the decoder's error cases.
- `LockMachine` (`lock_machine.dfy`): each handler as a function from the page state
  before it to the state after it and the outcome it reports, with the lemmas that
  state what each handler guarantees and that a page at rest agrees with its storage.
- `Page` (`page.dfy`): the page as objects. `LocalStorage` holds the entries and
  outlives the page. `Authenticator` stands for `navigator.credentials`: its answers
  are left open, and it records every request and answer. `LockPage` holds the React
  state in fields; each handler method is tied to the `LockMachine` step for it.

The WebAuthn platform is a nondeterministic oracle: `create` gives a credential, null,
or a rejection; `get` gives an assertion, null, or a rejection. The random challenge is
an array of 32 bytes whose values are left open. Each handler is one atomic step.

Behaviour of the page worth noting:

- The decoder is not limited to the URL-safe alphabet. `atob` also accepts `+`, `/`,
  ASCII whitespace and `=` padding, and it ignores unused low bits. `DecodeAcceptsStandardAlphabet`
  states that standard symbols decode like their URL-safe counterparts. Rejection has
  several causes: a length of 1 modulo 4 (`UrlDecode`); a character outside both
  alphabets other than `=` and whitespace (`DecodeRejectsForeignCharacter`); an `=` that
  is left once `atob` has dropped at most two trailing ones (`DecodeRejectsStrayPadding`
  shows `"A="`); and whitespace, which the pad count of line 18 counts but `atob`
  ignores, so that the padding no longer completes a multiple of four
  (`DecodeRejectsShiftingWhitespace` shows `"A B"`).
- Registration checks for `navigator.credentials` first and reports an unsupported
  browser. Unlock does not: it checks the stored id, draws the challenge and decodes the
  id, and only then does the call at line 133 throw. The page reports this as an
  authentication failure, with no request made. `Unlock` takes no platform answer for
  this case.
- A stored id that does not decode makes unlock fail with an authentication alert.
  The page does not treat this as "no credential" and does not ask for re-enrolment.
  `hasCredential` stays true.
- At startup the page is unlocked whenever the stored flag is `"true"`, whatever wrote
  it. "Unlocked only after a successful verification" therefore holds for the
  handlers (`UnlockNeedsAssertion`), not for the stored flag.
- Only the buttons stop a second request while one is running. The handlers do not
  check `loading` themselves. `ClickUnlock`, `ClickRegister` and `ClickRelock` model the buttons.
- If the platform returns an empty raw id, registration stores `""` but still sets
  `hasCredential`. `RegisterConsistency` states that this is the only way a handler
  breaks the agreement between the page and its storage. WebAuthn credential ids are
  at least 16 bytes long, so this case does not arise in practice.

## Model

| member | source | states |
|---|---|---|
| `Base64.Sextets` | app/page.js:10 | the 6-bit groups of section 4 of RFC 4648 number ceil(4n/3), each in 0..63 |
| `Base64.DecodeSextets` | app/page.js:19 | reassembling groups (never 1 modulo 4 of them) gives 3/4 of a byte per group, rounded down |
| `Base64.DecodeSextetsOfSextets` | app/page.js:10-19 | decoding the groups of any byte sequence gives the bytes back |
| `Base64.Padding` | app/page.js:10 | `btoa`'s padding is `=` only and completes the output to a multiple of four |
| `Base64.EncodeStd` | app/page.js:10 | standard base64 has 4*ceil(n/3) characters, a multiple of four |
| `Base64.Values` | app/page.js:19 | symbol values exist exactly when every character is in the alphabet, and re-encode to the input |
| `Base64.StripWhitespace` | app/page.js:19 | `atob` keeps exactly the characters that are not ASCII whitespace |
| `Base64.DropPadding` | app/page.js:19 | `atob` drops at most two trailing characters, all `=` |
| `Base64.CharCodes` | app/page.js:21-23 | the character codes of a binary string rebuild that string |
| `Base64.ForgivingDecode` | app/page.js:19 | `atob` fails when the text without whitespace is 1 modulo 4 long, succeeds only when every character other than whitespace and `=` is a standard symbol, and yields at most three bytes per four characters |
| `Base64.Btoa` | app/page.js:10 | `btoa` throws exactly when a code is above 255, and otherwise gives 4*ceil(n/3) characters, a multiple of four |
| `Base64.Atob` | app/page.js:19 | `atob` throws exactly when forgiving-base64 decode fails; otherwise its characters are the decoded bytes |
| `Base64Url.StripTrailing` | app/page.js:13 | `replace(/=+$/, "")` leaves a prefix that does not end in `=` and removes only `=` |
| `Base64Url.PadCount` | app/page.js:18 | the pad count is below four and brings the length to a multiple of four |
| `Base64Url.BufToBase64Url` | app/page.js:6-14 | the encoder returns `UrlEncode` of its input: URL-safe symbols only, ceil(4n/3) characters, never 1 modulo 4, and decodable back to the input |
| `Base64Url.Base64UrlToBuf` | app/page.js:16-25 | the decoder returns `UrlDecode` of its input, None where `atob` throws |
| `Base64Url.EncoderOutput` | app/page.js:10-13 | the encoder's output has no `+`, `/` or `=`, has ceil(4n/3) characters and is never 1 modulo 4 long |
| `Base64Url.UrlEncode` | app/page.js:10-13 | the encoder's result is exactly the URL-safe symbols of the 6-bit groups, ceil(4n/3) of them, with no padding |
| `Base64Url.UrlRewriting` | app/page.js:10-13 | rewriting `btoa`'s output and stripping `=` yields exactly the URL-safe symbols of the groups |
| `Base64Url.UrlDecode` | app/page.js:17-24 | the decoder rejects every string 1 modulo 4 long, whatever its characters |
| `Base64Url.EncodedLength` | app/page.js:10-13 | ceil(4n/3) is 4*(n div 3) plus 0, 2 or 3, never 1 modulo 4 |
| `Base64Url.PadCountOfEncoderLength` | app/page.js:18 | on a length not 1 modulo 4 the decoder adds at most two `=` |
| `Base64Url.DecodePadded` | app/page.js:17-19 | the decoder's padding restores exactly what the encoder stripped, and `atob` then yields the groups' bytes |
| `Base64Url.BtoaRoundTrip` | app/page.js:10-19 | `atob` gives back every binary string that `btoa` encodes |
| `Base64Url.RoundTrip` | app/page.js:6-25 | decoding the encoding of any byte sequence, the empty one included, gives it back |
| `Base64Url.PaddedLengthOneModFour` | app/page.js:17-19 | a string 1 modulo 4 long gets three `=`; `atob` drops at most two, so it throws |
| `Base64Url.DecodeRejectsForeignCharacter` | app/page.js:17-19 | a character outside both alphabets, `=` and whitespace makes the decoder throw |
| `Base64Url.DecodeRejectsStrayPadding` | app/page.js:17-19 | a symbol followed by `=` makes the decoder throw: one `=` is left once `atob` drops two |
| `Base64Url.DecodeRejectsShiftingWhitespace` | app/page.js:17-19 | two symbols around a space make the decoder throw: the space is padded for, then ignored |
| `Base64Url.DecodeOnUrlAlphabet` | app/page.js:17-24 | on the URL-safe alphabet the decoder succeeds exactly when the length is not 1 modulo 4, returning floor(3n/4) bytes |
| `Base64Url.DecodeAcceptsStandardAlphabet` | app/page.js:17 | the decoder reads `+` and `/` as it reads `-` and `_` |
| `LockMachine.Load` | app/page.js:33-40 | startup writes nothing and leaves the busy flag alone, can change the status only to unlocked, and brings a page mounted locked and not busy into agreement with its storage |
| `LockMachine.Register` | app/page.js:45-103 | register never changes the status or the stored flag, ends not busy, succeeds exactly when the platform returns a credential, and sets the credential flag exactly then or when it was set already |
| `LockMachine.UnlockRequest` | app/page.js:111-124 | before the platform call unlock can stop only for a missing or an undecodable id; the id it asks for is the decoding of a non-empty stored id |
| `LockMachine.Unlock` | app/page.js:106-152 | unlock ends not busy, never changes the credential flag, changes the status only to unlocked and only on an assertion, and stores `"true"` when it succeeds |
| `LockMachine.Relock` | app/page.js:170-173 | relock leaves the page locked with `"false"` stored, and keeps the credential and busy flags |
| `LockMachine.StartupReadsStorage` | app/page.js:33-40 | after startup the page is unlocked exactly when the flag is `"true"` and has a credential exactly when a non-empty id is stored |
| `LockMachine.RestartRestores` | app/page.js:28-40 | a restart restores a page at rest exactly |
| `LockMachine.RegisterEffect` | app/page.js:45-103 | register keeps status and flag, ends not busy, succeeds exactly on a credential and then stores its encoded id; otherwise changes nothing else |
| `LockMachine.RegisterThenUnlockRequest` | app/page.js:92-93 | after registering, unlock asks the platform for exactly the new raw id |
| `LockMachine.RegisterConsistency` | app/page.js:88-99 | register keeps page and storage in agreement unless the raw id is empty |
| `LockMachine.UnlockRequestCases` | app/page.js:111-124 | unlock stops before the platform call exactly when no id is stored or it does not decode |
| `LockMachine.UnlockEffect` | app/page.js:106-152 | unlock succeeds exactly on an assertion for a decodable stored id, then unlocks and stores `"true"`; otherwise only the busy flag changes |
| `LockMachine.UnlockNeedsAssertion` | app/page.js:137-143 | a locked page becomes unlocked only through an assertion for a stored credential |
| `LockMachine.UnlockConsistency` | app/page.js:142-143 | unlock keeps page and storage in agreement |
| `LockMachine.UnlockSurvivesRestart` | app/page.js:35-36 | after a successful unlock a restart shows the page unlocked |
| `LockMachine.RelockEffect` | app/page.js:170-173 | relock locks, stores `"false"`, touches nothing else and is idempotent |
| `LockMachine.RelockConsistency` | app/page.js:170-173 | relock keeps page and storage in agreement, and a restart shows it locked |
| `LockMachine.UnlockButtonMatchesGuard` | app/page.js:219 | on a locked page at rest the unlock button is enabled exactly when the handler finds a stored id |
| `LockMachine.HandlersReenableControls` | app/page.js:100-102 | every handler ends not busy, so the controls depend only on status and credential again |
| `LockMachine.EnrolUnlockRelock` | app/page.js:45-173 | enrolling 0xA1B2, unlocking and relocking go locked, unlocked with `"true"`, locked with `"false"` |
| `Page.LockPage.constructor` | app/page.js:28-30 | a mounted page starts locked, without credential, not busy |
| `Page.LockPage.LoadStoredState` | app/page.js:33-40 | the startup effect performs the step `Load` |
| `Page.LockPage.RegisterBiometric` | app/page.js:45-103 | no request without a platform; otherwise one creation request with a 32-byte challenge, then the step `Register` for its answer |
| `Page.LockPage.UnlockWithBiometric` | app/page.js:106-152 | no request when the stored id is missing, empty or malformed, nor when the browser has no `navigator.credentials` (then the step `Unlock` with no answer); otherwise one assertion request for the decoded id with a 32-byte challenge, then the step `Unlock` for its answer |
| `Page.LockPage.Relock` | app/page.js:170-173 | the relock click performs the step `Relock` |
| `Page.LockPage.ClickUnlock` | app/page.js:218-220 | a click on the disabled unlock button changes nothing and asks nothing of the platform |
| `Page.LockPage.ClickRelock` | app/page.js:155-173 | the relock button exists only on the unlocked screen: a click there performs the step `Relock`, and on a locked page nothing changes |
| `Page.LockPage.ClickRegister` | app/page.js:233-235 | a click on the disabled register button changes nothing and asks nothing of the platform |
| `Page.Restart` | app/page.js:28-40 | a restart on the same storage yields the state `Load(Mounted(items))` |

## Left out

- The WebAuthn calls `navigator.credentials.create` and `get` are foreign. They are an oracle whose answer is left open. Attestation, signatures and the static fields of the request objects are not modelled: relying party, user, algorithm, authenticator selection, timeout and transports. The model keeps the challenge length and the `allowCredentials` id.
- The page does not verify assertions against a public key, and neither does the model.
- `window.crypto.getRandomValues` is foreign randomness: the challenge bytes are left open, only their number (32) is fixed.
- `TextEncoder`, `window.location.hostname` and the `typeof window` test are environment probing.
- `localStorage.getItem` and `setItem` never throw in the model. Disabled storage and an exceeded quota are not modelled.
- `async`/`await` interleaving and React's batching of state updates are not modelled. Each handler is one atomic step, and state updates take effect at once.
- `alert`, `console.error`, the `log` text and all rendering and styles are presentation.
- JavaScript strings are sequences of UTF-16 code units; the model uses Dafny characters, which are Unicode scalar values. This matters only for input that `atob` rejects either way.
