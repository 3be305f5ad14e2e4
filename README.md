# WorldPosta two-factor authentication, modelled in Dafny

WorldPosta adds a second factor (a push approval on a phone, or a TOTP code) to three kinds of logon. Each kind has its own client, and this project models the decision logic of all three:

- **Windows credential provider** (C++).
  - `CCredential` decides step by step whether a logon needs a second factor and which one. It then turns the outcome into a serialisation response and follows password changes. Its model is the class `Credential.Credential`.
  - `Shared` decides which logon scenarios the provider and its filter join (`Scenario`).
  - Two API clients are modelled: `WorldPostaAPI` (`WorldPostaApi`) and the `MultiOTP` backend (`MultiOtp`).
  - `SecureStorage` keeps the keys DPAPI-protected and Base64-encoded in the registry (`SecureStorage`, `Base64`).
- **Linux PAM module** (C) for SSH.
  - `config.c` parses the ini file and applies the exclusion and group policies (`PamConfig`).
  - `crypto.c` builds the nonce and the HMAC signature in caller buffers (`PamCrypto`).
  - `api.c` is the libcurl client with its response buffer and status poll (`PamApi`).
  - `pam_sm_authenticate` runs the whole flow down to a PAM return code (`PamAuth`).
- **Python RADIUS/LDAP proxy**.
  - Request signing (`ProxySigning`) and the API client with its push poll (`ProxyClient`).
  - The authentication engine that splits `password,factor` (`ProxyEngine`).
  - The INI configuration reader (`ProxyConfig`).
  - The RADIUS front end: client table, retransmission table per section 3 of RFC 2865, and Access-Accept/Access-Reject. This is `RadiusServer`.
  - The LDAP bind and search handlers (`LdapServer`).

`Hex`, `Text`, `CString` and `Wrappers` are shared helpers. Each is defined once, and each holds the properties the clients rely on.

Code that changes state step by step is modelled as classes and methods over arrays and fields. Each of these methods is proved against a specification function, and the properties are proved about those functions as lemmas. This covers `CCredential`, the response buffer, the C string buffers, the poll loops, the proxy's `ConfigParser` and its RADIUS tables. Pure code is modelled as functions.

Everything outside the program is a parameter of the model:

- the network (WinHTTP, libcurl, aiohttp);
- the proxy's Active Directory check, as a function of the user name and password;
- HMAC-SHA256 (RFC 2104), DPAPI, the random sources and the clock;
- the operating system's answers: SIDs, sessions, the domain join, the user and group databases, the registry;
- the dialogs, the JSON parsers and the INI parser (configparser).

Properties proved across the clients:

- The PAM module and the proxy put the same signature on the same request (`PamCrypto.SameSignatureAsProxy`).
- `WorldPostaAPI` signs without a nonce (`WorldPostaApi.SigningData`).
- The LDAP front end accepts a bind that has an empty password or an empty DN without consulting any factor (`LdapServer.BindOutcome`). In the terms of RFC 4513 these are three different cases. An empty DN with an empty password is an anonymous bind (section 5.1.1). A DN with an empty password is an unauthenticated bind (section 5.1.2), which section 5.1.2 says servers should refuse by default. An empty DN with a non-empty password is neither, and the front end accepts it as well.

## Model

| member | source | states |
|---|---|---|
| Scenario.EntryName | Shared/Shared.cpp:46-73 | only logon, unlock and CredUI have a configuring registry entry; every other scenario has none |
| Scenario.RequiredCases | Shared/Shared.cpp:32-36 | a caller other than the filter or the provider is refused; change-password, PLAP, invalid and unknown scenarios are refused; an empty entry for logon, unlock or CredUI enables the scenario |
| Scenario.ProviderModes | Shared/Shared.cpp:89-93 | the provider reads only the first character: '0' always, '1' iff the session is remote, '2' iff it is local or logon/unlock, anything else disabled |
| Scenario.FilterNeedsE | Shared/Shared.cpp:83-88 | the filter answers true only for the exact entries "0e", "1e", "2e" (or an empty entry) |
| Scenario.FilterImpliesProvider | Shared/Shared.cpp:83-93 | whenever the filter is required for a scenario, so is the provider |
| Scenario.IsCurrentSessionRemote | Shared/Shared.cpp:102-158 | a set remote-session metric means remote; with the metric clear, a failed console-id or current-id lookup means local (the test fails safe) |
| Scenario.RemoteEntryFollowsSession | Shared/Shared.cpp:29-98 | the scenario check classifies the session itself: an entry starting with '1' enumerates the provider (and "1e" the filter) exactly when the metric is set or the known console and current session ids differ |
| Scenario.CPUStoStringInjective | Shared/Shared.cpp:160-179 | every named scenario gets its identifier and anything else "Unknown CPUS: n"; different scenarios get different strings |
| Hex.Encode | worldposta-ssh-mfa/src/crypto.c:26-28 | two lower-case hexadecimal digits per byte |
| Hex.DecodeEncode | worldposta-ssh-mfa/src/crypto.c:26-28 | hexadecimal text decodes back to the bytes it was written from |
| Hex.EncodeDecode | worldposta-auth-proxy/src/api/signing.py:22 | every even-length lower-case hexadecimal text is the encoding of some bytes |
| Hex.EncodeInjective | worldposta-auth-proxy/src/api/signing.py:49 | distinct digests give distinct hexadecimal signatures |
| Hex.EncodeAppend | worldposta-ssh-mfa/src/crypto.c:52-54 | the loop's output for a concatenation is the outputs of its parts in order |
| Hex.EncodeSnoc | worldposta-ssh-mfa/src/crypto.c:52-54 | one more pass of the loop appends that byte's two digits |
| Base64.DecodeChar | CppClientCore/CppClientCore/SecureStorage.cpp:33-38 | the decode table maps exactly the 64 alphabet characters to their group value and every other character to -1; a valid entry inverts the alphabet |
| Base64.QuantumShape | CppClientCore/CppClientCore/SecureStorage.cpp:15-23 | one input group becomes four characters: alphabet characters for the bytes present, then "==" after a single byte, "=" after two bytes and no '=' after three |
| Base64.EncodeLength | CppClientCore/CppClientCore/SecureStorage.cpp:13-24 | the encoding of n bytes is 4 * ceil(n / 3) characters long |
| Base64.EncodeShape | CppClientCore/CppClientCore/SecureStorage.cpp:20-23 | an encoding is alphabet characters followed only by the padding of the final group ("" when n is a multiple of 3) |
| Base64.RoundTrip | CppClientCore/CppClientCore/SecureStorage.cpp:11-60 | decoding the encoding of any byte sequence gives that byte sequence back |
| Base64.DecodedLength | CppClientCore/CppClientCore/SecureStorage.cpp:45-57 | k accepted characters before the first '=' decode to floor(6k / 8) bytes |
| Base64.StopsAtPad | CppClientCore/CppClientCore/SecureStorage.cpp:46 | decoding stops at the first '=': whatever follows it is ignored |
| Base64.SkipsInvalid | CppClientCore/CppClientCore/SecureStorage.cpp:47-48 | a character outside the alphabet (other than '=') is skipped without effect on the result |
| Base64.Base64Encode | CppClientCore/CppClientCore/SecureStorage.cpp:11-27 | the loop over 24-bit groups computes the bit-stream encoding of RFC 4648 section 4 (the specification the lemmas above are about) |
| Base64.Base64Decode | CppClientCore/CppClientCore/SecureStorage.cpp:29-60 | the shift-register loop, with its unsigned 32-bit buffer, computes the bit-stream decoding of the characters before the first '=' |
| SecureStorage.EmptyShortCircuits | CppClientCore/CppClientCore/SecureStorage.cpp:63-130 | Encrypt, Decrypt, EncryptW and DecryptW return empty on empty input, whatever DPAPI and the UTF-8 conversion would do |
| SecureStorage.EncryptEmpty | CppClientCore/CppClientCore/SecureStorage.cpp:62-81 | Encrypt returns "" exactly when the plaintext is empty or CryptProtectData fails (or returns an empty blob) |
| SecureStorage.EncryptNoNul | CppClientCore/CppClientCore/SecureStorage.cpp:77 | the stored text is Base64 and so holds no NUL that would cut it short in the registry |
| SecureStorage.DecryptEmpty | CppClientCore/CppClientCore/SecureStorage.cpp:83-106 | Decrypt returns "" exactly for empty input, a payload that decodes to nothing, a failed CryptUnprotectData or a plaintext starting with NUL; otherwise the plaintext up to its first NUL |
| SecureStorage.RoundTrip | CppClientCore/CppClientCore/SecureStorage.cpp:62-106 | a NUL-free plaintext that DPAPI protects and unprotects decrypts back to itself (the NUL terminator is encrypted with it) |
| SecureStorage.RoundTripW | CppClientCore/CppClientCore/SecureStorage.cpp:108-149 | the wide-string variants round-trip when, in addition, the UTF-8 conversion does |
| SecureStorage.Registry.ReadEncryptedValue | CppClientCore/CppClientCore/SecureStorage.cpp:151-181 | a missing key or value, a value that is not REG_SZ or one of size zero reads as ""; otherwise the text up to its NUL is decrypted |
| SecureStorage.Registry.WriteEncryptedValue | CppClientCore/CppClientCore/SecureStorage.cpp:183-199 | a non-empty plaintext that encrypts to nothing returns false and leaves the registry unchanged; otherwise the key is created and the value written as REG_SZ with its NUL, and the result is whether both calls succeeded |
| SecureStorage.WriteThenRead | CppClientCore/CppClientCore/SecureStorage.cpp:151-199 | a value that was written reads back as the plaintext |
| WorldPostaApi.NormalizeUsername | CppClientCore/CppClientCore/WorldPostaAPI.cpp:38-58 | the normalised name holds no '@' and no upper-case ASCII letter |
| WorldPostaApi.NormalizeDomain | CppClientCore/CppClientCore/WorldPostaAPI.cpp:42-55 | a "DOMAIN\" prefix is dropped, then everything from the first '@', then the rest is lower-cased ("DOMAIN\Bob@corp.com" gives "bob") |
| WorldPostaApi.NormalizeRealm | CppClientCore/CppClientCore/WorldPostaAPI.cpp:48-55 | "user@realm" normalises to the lower-cased user |
| WorldPostaApi.NormalizePlain | CppClientCore/CppClientCore/WorldPostaAPI.cpp:54-55 | a name with neither '\' nor '@' is only lower-cased |
| WorldPostaApi.NormalizeIdempotent | CppClientCore/CppClientCore/WorldPostaAPI.cpp:43-55 | normalising twice changes nothing when the name holds at most one '\' |
| WorldPostaApi.NormalizeSecondBackslash | CppClientCore/CppClientCore/WorldPostaAPI.cpp:43-46 | only the first '\' is consumed: "a\b\c" normalises to "b\c", and normalising that again gives "c" |
| WorldPostaApi.StoiOfNat | CppClientCore/CppClientCore/WorldPostaAPI.cpp:135 | a port written in decimal is read back by std::stoi |
| WorldPostaApi.StoiNeedsDigit | CppClientCore/CppClientCore/WorldPostaAPI.cpp:135 | std::stoi refuses text without a digit |
| WorldPostaApi.SplitUrlShape | CppClientCore/CppClientCore/WorldPostaAPI.cpp:116-137 | the host of a split endpoint holds no '/' or ':' and the port fits the 16-bit INTERNET_PORT |
| WorldPostaApi.SchemeAt | CppClientCore/CppClientCore/WorldPostaAPI.cpp:121-124 | the text up to and including "://" is discarded |
| WorldPostaApi.HostPartHttps | CppClientCore/CppClientCore/WorldPostaAPI.cpp:126-131 | the host part ends at the first '/' after the scheme |
| WorldPostaApi.DefaultPort | CppClientCore/CppClientCore/WorldPostaAPI.cpp:118-137 | without a ':' in the host the port is 443 |
| WorldPostaApi.ExplicitPort | CppClientCore/CppClientCore/WorldPostaAPI.cpp:133-137 | "https://host:p/path" connects to host on port p |
| WorldPostaApi.Int32 | CppClientCore/CppClientCore/WorldPostaAPI.cpp:308 | a JSON number read into an int keeps its value when it fits 32 bits and wraps otherwise |
| WorldPostaApi.AsInt | CppClientCore/CppClientCore/WorldPostaAPI.cpp:308 | get<int> succeeds exactly on numbers and booleans |
| WorldPostaApi.EscapePlain | CppClientCore/CppClientCore/WorldPostaAPI.cpp:252 | json::dump leaves a string unchanged exactly when it has no quote, backslash or control character |
| WorldPostaApi.DumpPlainPair | CppClientCore/CppClientCore/WorldPostaAPI.cpp:248-252 | an object of two plain string members is dumped as {"k1":"v1","k2":"v2"} |
| WorldPostaApi.TotpBodyLayout | CppClientCore/CppClientCore/WorldPostaAPI.cpp:246-252 | the verifyTOTP body carries the code and the normalised user name as externalUserId |
| WorldPostaApi.SigningData | CppClientCore/CppClientCore/WorldPostaAPI.cpp:62 | the signed text is the timestamp followed by the body: the proxy's signing string with an empty nonce |
| WorldPostaApi.Signature | CppClientCore/CppClientCore/WorldPostaAPI.cpp:60-105 | the signature is the HMAC digest as two lower-case hex digits per byte, or "" when a BCrypt call fails |
| WorldPostaApi.SignedWithoutNonce | CppClientCore/CppClientCore/WorldPostaAPI.cpp:62-188 | a request carries exactly four headers, none of them X-Nonce, with the integration key, the signature of timestamp and body, and the timestamp |
| WorldPostaApi.ErrorAfter | CppClientCore/CppClientCore/WorldPostaAPI.cpp:157-210 | a request that fails sets _lastError to a setup or server-unavailable code; a body read leaves it unchanged |
| WorldPostaApi.TotpAnswerSuccess | CppClientCore/CppClientCore/WorldPostaAPI.cpp:259-276 | a parsed answer is WP_AUTH_SUCCESS exactly when it has "valid" equal to true |
| WorldPostaApi.EmptyAnswerAuthenticates | CppClientCore/CppClientCore/WorldPostaAPI.cpp:255-257 | as written, an empty answer returns _lastError, which is WP_AUTH_SUCCESS before any failure, so an empty answer accepts the code |
| WorldPostaApi.AcceptedThenEmptyAuthenticates | CppClientCore/CppClientCore/WorldPostaAPI.cpp:238-277 | as written, once a code is accepted on a fresh client, _lastError is still WP_AUTH_SUCCESS and an empty answer to the next verifyTOTP authenticates |
| WorldPostaApi.TotpOutcomeSuccess | CppClientCore/CppClientCore/WorldPostaAPI.cpp:255-276 | corrected: the code is accepted exactly when a non-empty answer parses with "valid" equal to true |
| WorldPostaApi.PushAnswerCases | CppClientCore/CppClientCore/WorldPostaAPI.cpp:302-322 | WP_TRIGGERED_PUSH exactly when the answer has a string requestId and an expiresIn that is absent or reads as an int; then the challenge holds that id, status "pending" and expiresIn (60 when absent); "user_not_found" without an id gives WP_USER_NOT_FOUND; a parse or type error gives WP_AUTH_ERROR; no string id leaves the challenge unchanged |
| WorldPostaApi.StatusAnswerCases | CppClientCore/CppClientCore/WorldPostaAPI.cpp:334-344 | "approved", "denied" and "expired" map to their codes; a missing or any other status is WP_PUSH_PENDING |
| WorldPostaApi.PollFrom | CppClientCore/CppClientCore/WorldPostaAPI.cpp:353-376 | the loop calls back with true only right after an approval, and runs out only after maxPolls checks |
| WorldPostaApi.PollChecksBounded | CppClientCore/CppClientCore/WorldPostaAPI.cpp:354-356 | at most expiresIn * 2 status checks are made |
| WorldPostaApi.PollApprovedIff | CppClientCore/CppClientCore/WorldPostaAPI.cpp:356-376 | the callback gets true exactly when an approval comes within the bound, before any denial or expiry and before _runPoll is cleared |
| WorldPostaApi.PollErrors | CppClientCore/CppClientCore/WorldPostaAPI.cpp:355-356 | status checks that all get an answer leave _lastError and _lastErrorMessage as they were; after one that fails, _lastError is a setup or server-unavailable code |
| WorldPostaApi.AuthMethodsCases | CppClientCore/CppClientCore/WorldPostaAPI.cpp:421-438 | success reports the server's flags (each true when absent); an unknown user has neither method; a parse error falls back on the configured flags |
| WorldPostaApi.Api.constructor | CppClientCore/CppClientCore/WorldPostaAPI.cpp:32-36 | a new client holds the configuration, no challenge (expiresIn 60), _runPoll clear and no error |
| WorldPostaApi.Api.MakeRequest | CppClientCore/CppClientCore/WorldPostaAPI.cpp:107-236 | the request goes to the split endpoint with the signed headers; a WinHTTP failure returns "" and sets _lastError (and the message) as each stage does; the challenge and the poll flag are untouched |
| WorldPostaApi.Api.VerifyTotpAsWritten | CppClientCore/CppClientCore/WorldPostaAPI.cpp:238-277 | verifyTOTP as written: the empty-answer case returns the stored _lastError; _lastError becomes WP_AUTH_ERROR only on an unreadable answer and otherwise keeps what the request left; _lastErrorMessage takes a rejection's "message"; configuration, challenge and _runPoll are unchanged |
| WorldPostaApi.Api.VerifyTotp | CppClientCore/CppClientCore/WorldPostaAPI.cpp:238-277 | verifyTOTP with an empty answer reported as an error; only a "valid": true answer succeeds; _lastError and _lastErrorMessage change as in VerifyTotpAsWritten; configuration, challenge and _runPoll are unchanged |
| WorldPostaApi.Api.SendPush | CppClientCore/CppClientCore/WorldPostaAPI.cpp:279-323 | sendPush posts the push body; an empty answer returns _lastError and leaves the challenge; otherwise the answer's code, the challenge it stores, _lastError set to WP_AUTH_ERROR exactly when nlohmann throws, and the message the answer leaves; configuration and _runPoll are unchanged |
| WorldPostaApi.Api.CheckPushStatus | CppClientCore/CppClientCore/WorldPostaAPI.cpp:325-345 | the mapped status, or _lastError for an empty answer; decisive, and an approval, exactly when the check's verdict is; _lastError and _lastErrorMessage are those the request left; configuration, challenge and _runPoll are unchanged |
| WorldPostaApi.Api.PollThread | CppClientCore/CppClientCore/WorldPostaAPI.cpp:347-377 | the callback is called exactly once, with the argument and after the number of checks that PollFrom gives for the successive verdicts and the 32-bit expiresIn * 2 bound; _runPoll stays set only when the checks ran out; _lastError and _lastErrorMessage are those the checks made leave; configuration and challenge are unchanged |
| WorldPostaApi.Api.AsyncPollPush | CppClientCore/CppClientCore/WorldPostaAPI.cpp:379-386 | _runPoll is set, then the poll loop runs to its specified end, with the same callback, check count and error state as PollThread; configuration and challenge are unchanged |
| WorldPostaApi.Api.StopPoll | CppClientCore/CppClientCore/WorldPostaAPI.cpp:388-392 | clears _runPoll and returns true; configuration, challenge, _lastError and _lastErrorMessage are unchanged |
| WorldPostaApi.Api.GetAuthMethods | CppClientCore/CppClientCore/WorldPostaAPI.cpp:394-439 | an empty answer reports the configured flags and _lastError; otherwise the answer is read as AuthMethodsCases states; _lastError and _lastErrorMessage are those the request left; configuration, challenge and _runPoll are unchanged |
| WorldPostaApi.Stoi | CppClientCore/CppClientCore/WorldPostaAPI.cpp:135 | a port std::stoi accepts lies in the range of `int` |
| WorldPostaApi.TotpAnswer | CppClientCore/CppClientCore/WorldPostaAPI.cpp:259-276 | a non-empty answer yields success, failure or error, nothing else |
| WorldPostaApi.PushAnswer | CppClientCore/CppClientCore/WorldPostaAPI.cpp:302-322 | a non-empty push answer yields WP_TRIGGERED_PUSH, WP_USER_NOT_FOUND or WP_AUTH_ERROR |
| WorldPostaApi.StatusAnswer | CppClientCore/CppClientCore/WorldPostaAPI.cpp:334-344 | a non-empty status answer yields approved, denied, expired, pending or an error |
| WorldPostaApi.AuthMethodsAnswer | CppClientCore/CppClientCore/WorldPostaAPI.cpp:421-438 | a non-empty answer yields success, an unknown user or an error |
| WorldPostaApi.Api.TotpAnswerStep | CppClientCore/CppClientCore/WorldPostaAPI.cpp:259-276 | the answer's code; _lastError set only on a parse or type error, _lastErrorMessage only from a failure's "message"; the challenge untouched |
| WorldPostaApi.Api.PushAnswerStep | CppClientCore/CppClientCore/WorldPostaAPI.cpp:302-322 | the answer's code, the challenge and message it leaves, and _lastError set only when nlohmann throws |
| MultiOtp.GenerateNonce | CppClientCore/CppClientCore/MultiOTP.cpp:50-61 | the nonce is 32 characters of "0123456789abcdef", the i-th naming the i-th random draw |
| MultiOtp.SigningData | CppClientCore/CppClientCore/MultiOTP.cpp:191-196 | the signed text is timestamp, nonce and body, the same signing string as the proxy's |
| MultiOtp.HmacHex | CppClientCore/CppClientCore/MultiOTP.cpp:82-129 | the digest is rendered as lower-case hex, two digits per byte, or "" when a BCrypt call fails |
| MultiOtp.SignedWithNonce | CppClientCore/CppClientCore/MultiOTP.cpp:132-252 | a request carries the nonce it signed and a 64-character lower-case hex signature of timestamp, nonce and body |
| MultiOtp.GetJsonValue | CppClientCore/CppClientCore/MultiOTP.cpp:255-264 | the value is "" when the quoted key does not occur |
| MultiOtp.ValueStart | CppClientCore/CppClientCore/MultiOTP.cpp:262-266 | the value starts at the first non-blank after the colon that follows the key |
| MultiOtp.StringValue | CppClientCore/CppClientCore/MultiOTP.cpp:268-271 | a string value is the text up to the next '"', with no escape handling |
| MultiOtp.BoolValue | CppClientCore/CppClientCore/MultiOTP.cpp:272-274 | a literal true or false reads as itself |
| MultiOtp.OtherValue | CppClientCore/CppClientCore/MultiOTP.cpp:275-279 | any other value is the text up to the next ',', '}' or ']' |
| MultiOtp.UnterminatedValue | CppClientCore/CppClientCore/MultiOTP.cpp:275-280 | such a value with no ',', '}' or ']' after it reads as "" |
| MultiOtp.Key | CppClientCore/CppClientCore/MultiOTP.cpp:305-327 | the decrypted key is used when non-empty; otherwise the plaintext key when its registry length exceeds 1; otherwise "" |
| MultiOtp.KeyChoice | CppClientCore/CppClientCore/MultiOTP.cpp:305-327 | a key present neither encrypted nor as a plaintext value longer than one unit makes `validateCheck` fail with code 99; otherwise the request carries the encrypted integration key over the plaintext one and is signed with the secret key chosen the same way |
| MultiOtp.ClientIp | CppClientCore/CppClientCore/MultiOTP.cpp:543-586 | the client address sent with a push is never empty: dotted bytes 2-5 for AF_INET, bytes 0-3 for family 4, "IPv6 Client", or "Unknown" |
| MultiOtp.ZeroAddressIsLocal | CppClientCore/CppClientCore/MultiOTP.cpp:579-581 | a console session's all-zero IPv4 address is sent as "Local" |
| MultiOtp.StatusVerdict | CppClientCore/CppClientCore/MultiOTP.cpp:629-706 | a status check answers success, failure, pending or E_FAIL only |
| MultiOtp.PollFrom | CppClientCore/CppClientCore/MultiOTP.cpp:369-394 | the push loop makes at most 30 checks; success needs an approving check, with code 0; failure carries code 70 or 99 |
| MultiOtp.PollOutcome | CppClientCore/CppClientCore/MultiOTP.cpp:373-394 | the push succeeds exactly when a check within 30 approves before any decisive one; code 70 exactly when no check within 30 was decisive |
| MultiOtp.PollApproves | CppClientCore/CppClientCore/MultiOTP.cpp:373-380 | from any attempt on, the loop returns success exactly when a later or the same attempt, within 30, approves before any decisive one |
| MultiOtp.PollExhausts | CppClientCore/CppClientCore/MultiOTP.cpp:373-394 | from any attempt on, the loop ends with code 70 exactly when none of the remaining attempts within 30 is decisive |
| MultiOtp.SentId | CppClientCore/CppClientCore/MultiOTP.cpp:519-618 | a request id is only ever obtained with the endpoint and both keys configured |
| MultiOtp.Validate | CppClientCore/CppClientCore/MultiOTP.cpp:287-424 | validateCheck answers success or failure only, and code 0 exactly on success |
| MultiOtp.UnconfiguredFails | CppClientCore/CppClientCore/MultiOTP.cpp:333-337 | an endpoint shorter than 2 or a missing key fails with code 99 before any request: the transports make no difference |
| MultiOtp.TotpPath | CppClientCore/CppClientCore/MultiOTP.cpp:397-423 | an OTP: an empty answer is failure 70; success exactly when the answer's "valid" reads true; any other answer is failure 99 |
| MultiOtp.PushPath | CppClientCore/CppClientCore/MultiOTP.cpp:357-395 | "push" or "sms": a send without a request id is failure 70; success exactly when a check within 30 approves before any decisive check |
| MultiOtp.PushBranch | CppClientCore/CppClientCore/MultiOTP.cpp:357-394 | "push" or "sms": no request id gives failure with code 70; otherwise the result is the poll loop's over the verdicts of the checks |
| MultiOtp.UserTokenType | CppClientCore/CppClientCore/MultiOTP.cpp:438-472 | the token type is push exactly when the endpoint and both plaintext keys have registry length at least 2, and otherwise with-token; never locked, delayed or without-2FA |
| MultiOtp.EncryptedOnlyIsWithToken | CppClientCore/CppClientCore/MultiOTP.cpp:452-467 | with only encrypted keys stored, validation is configured yet the token type is with-token |
| MultiOtp.Client.constructor | CppClientCore/CppClientCore/MultiOTP.cpp:283-285 | the stored request id and user start empty |
| MultiOtp.Client.ApiRequest | CppClientCore/CppClientCore/MultiOTP.cpp:132-252 | the response is that of the signed request with the registry's endpoint and keys |
| MultiOtp.Client.SendPushNotification | CppClientCore/CppClientCore/MultiOTP.cpp:475-626 | S_OK exactly when a request id came back, which is then stored with the user; E_FAIL otherwise, leaving the stored id |
| MultiOtp.Client.CheckPushStatus | CppClientCore/CppClientCore/MultiOTP.cpp:629-706 | E_FAIL without a stored id; the verdict for the stored id otherwise; a decisive verdict clears the id |
| MultiOtp.Client.PollAttempt | CppClientCore/CppClientCore/MultiOTP.cpp:374-376 | one check gives the verdict of that attempt, keeps the stored id unless the verdict is decisive and leaves the stored user |
| MultiOtp.VerdictsReport | CppClientCore/CppClientCore/MultiOTP.cpp:374-376 | the verdicts a poll loop reads are, attempt by attempt, those its checks report |
| MultiOtp.Client.PollPush | CppClientCore/CppClientCore/MultiOTP.cpp:369-394 | the loop ends as PollFrom says for the verdicts of the stored id; the stored id is kept exactly when the loop ran out of attempts (code 70) and cleared otherwise; the stored user is unchanged |
| MultiOtp.Client.ValidateCheck | CppClientCore/CppClientCore/MultiOTP.cpp:287-424 | validateCheck returns the result and error code Validate gives; after a push that got a request id, the id stays stored only when the poll ran out (code 70) and the user is stored; otherwise both keep their earlier values |
| Credential.CleanUsername | CredentialProvider/core/CCredential.cpp:1677-1690 | the cleaned name has no '@' and is no longer than the input |
| Credential.NormalizeIsLowerClean | CredentialProvider/core/CCredential.cpp:1677-1690 | the WorldPosta client's normalizeUsername is exactly cleanUsername followed by lower-casing |
| Credential.CleanDomain | CredentialProvider/core/CCredential.cpp:1680-1683 | "domain\user" is cleaned to "user", case kept |
| Credential.StoredMinutes | CredentialProvider/core/CCredential.cpp:1836-1851 | the stored login minute read back for a SID is a DWORD, 0 when none is stored |
| Credential.RecentMeaning | CredentialProvider/core/CCredential.cpp:1836-1851 | a timeout of 0 or less never counts as recent; with stored minutes not after now, recent means fewer than timeout minutes ago; a stored time in the future wraps around as a DWORD |
| Credential.StoreLastUser | CredentialProvider/core/CCredential.cpp:1639-1675 | storing the last user changes only the stored registry values |
| Credential.StoreThenRecent | CredentialProvider/core/CCredential.cpp:1639-1851 | right after storing with the unlock timeout on, the same user counts as logged in recently |
| Credential.StoreDisabled | CredentialProvider/core/CCredential.cpp:1639-1675 | with both the last-user display and the timeout off, only the stored last user name is cleared |
| Credential.LocalRewrite | CredentialProvider/core/CCredential.cpp:1191-1205 | a name starting with '.' or '\' (find_first_of) gets its first two characters replaced by "<computer name>\" when the computer name is known; a one-character such name makes substr throw |
| Credential.Exempt | CredentialProvider/core/CCredential.cpp:1211-1396 | an exempt user ends Connect with PI_AUTH_SUCCESS; only the status and the stored last user change |
| Credential.CompareExcluded | CredentialProvider/core/CCredential.cpp:1182-1300 | Connect ends at the excluded-account check exactly when the rewritten typed account, or its join-qualified name, equals the excluded one upper-cased, and then with success; a throw leaves everything unchanged |
| Credential.ExcludedStep | CredentialProvider/core/CCredential.cpp:1182-1300 | the check changes only the excluded account (rewritten in place) and, on a match, the status and stored user; with no excluded account it does nothing |
| Credential.ExcludedMatch | CredentialProvider/core/CCredential.cpp:1182-1215 | "DOMAIN\user" typed in any case matches the excluded "domain\USER": Connect succeeds before any token-type or validate call, whatever the backend would say |
| Credential.LocalExcludedRewritten | CredentialProvider/core/CCredential.cpp:1191-1197 | an excluded account ".\rest" is overwritten in the configuration by "<computer name>\rest" |
| Credential.DotUserThrows | CredentialProvider/core/CCredential.cpp:1199-1205 | a user name "." with no domain makes substr(2) throw out of Connect |
| Credential.BypassStep | CredentialProvider/core/CCredential.cpp:1304-1316 | the bypass flag is always cleared; Connect returns at once exactly when bypass and a successful push are both set |
| Credential.ContinuityStep | CredentialProvider/core/CCredential.cpp:1318-1375 | the shortcut ends Connect with success exactly when the user logged in recently and has an active session with the same SID; nothing is stored |
| Credential.TokenStep | CredentialProvider/core/CCredential.cpp:1377-1419 | without-2FA users with multiOTPWithout2FA succeed; locked or delayed users with multiOTPDisplayLockedUser get USERLOCKED/USERDELAYED and the second step; push or token users on the first step get the OTP field hidden; nothing else changes |
| Credential.Checked | CredentialProvider/core/CCredential.cpp:1429-1518 | a validateCheck result becomes _piStatus; a failure keeps its error code for the message and stores nothing |
| Credential.ValidateStep | CredentialProvider/core/CCredential.cpp:1421-1545 | the validation branches change neither the flags nor the options; a success comes from validateCheck; a changed status is the answer of one validateCheck |
| Credential.ConnectSpec | CredentialProvider/core/CCredential.cpp:1138-1558 | Connect always finishes (S_OK or a throw) and never touches the dialog's statics |
| Credential.BypassCleared | CredentialProvider/core/CCredential.cpp:1304-1316 | past the excluded-account check every path leaves the bypass flag false; bypass with a successful push keeps _piStatus as it was |
| Credential.ContinuityShortcut | CredentialProvider/core/CCredential.cpp:1361-1364 | the continuity shortcut succeeds without storing a new timestamp and without asking the backend |
| Credential.LockedUserGate | CredentialProvider/core/CCredential.cpp:1398-1409 | a locked or delayed user is shown as such on the second step and validateCheck is not called |
| Credential.SuccessJustified | CredentialProvider/core/CCredential.cpp:1138-1558 | Connect reports success only for the excluded account, an earlier success, the continuity shortcut, a without-2FA user or a validateCheck success |
| Credential.MultiOtpGates | CredentialProvider/core/CCredential.cpp:1377-1419 | with the MultiOTP client, whose userTokenType answers push or with-token only, the without-2FA and locked gates never fire and the first step always hides the OTP field |
| Credential.NoChallengeWithMultiOtp | CredentialProvider/core/CCredential.cpp:1469-1487 | with the MultiOTP client Connect never produces PI_TRIGGERED_CHALLENGE, so the challenge branch of the first step is dead |
| Credential.ChoiceDialog | CredentialProvider/core/CCredential.cpp:866-1004 | as written: a success after the push button comes from this push callback or from the static left by an earlier dialog, and likewise for OTP; a cancel keeps _piStatus |
| Credential.FreshChoiceDialog | CredentialProvider/core/CCredential.cpp:866-1004 | with the statics reset first: a success comes only from this dialog's callback (or was already there before a cancel) |
| Credential.SecondFactor | CredentialProvider/core/CCredential.cpp:856-1044 | with a success or push flag in hand nothing is shown; the credential and options are untouched; without a success the answer is CPGSR_NO_CREDENTIAL_NOT_FINISHED |
| Credential.Pack | CredentialProvider/core/CCredential.cpp:1048-1080 | packing logs on and resets _piStatus to not-set and the push flag to false |
| Credential.Serialize | CredentialProvider/core/CCredential.cpp:772-1112 | with the corrected dialog that resets the statics: a logon always resets the status and the push flag for the next logon |
| Credential.LogonNeedsSecondFactor | CredentialProvider/core/CCredential.cpp:1048-1057 | credentials are packed for logon only after a password change, with a success or push flag in hand, or after this dialog's callback reported a success |
| Credential.NoUnexpectedError | CredentialProvider/core/CCredential.cpp:1081-1089 | the "Unexpected error" branch is unreachable: without a logon the answer is CPGSR_NO_CREDENTIAL_NOT_FINISHED |
| Credential.CancelledLogon | CredentialProvider/core/CCredential.cpp:848-854 | a cancelled attempt ends with CPGSR_NO_CREDENTIAL_FINISHED, packs nothing and changes nothing |
| Credential.PasswordChangePath | CredentialProvider/core/CCredential.cpp:822-846 | while a change is required, differing new passwords ask again and matching ones go to the change packer; no logon either way |
| Credential.DialogOutcomes | CredentialProvider/core/CCredential.cpp:866-1057 | in the dialog, logon happens exactly after a push the callback approved or an OTP the callback accepted; otherwise the first step asks again |
| Credential.StaleOtpStatusLogsOn | CredentialProvider/core/CCredential.cpp:938-980 | as written, a cancelled OTP dialog after an earlier successful one logs on; with the statics reset it does not |
| Credential.StaleStatusSurvives | CredentialProvider/core/CCredential.cpp:942-976 | a successful OTP dialog leaves PI_AUTH_SUCCESS in the static for the next dialog of the process |
| Credential.ReportResultSpec | CredentialProvider/core/CCredential.cpp:1596-1628 | ReportResult changes only the must-change and changed flags: (0,0) during a change becomes changed; must-change or expired asks for a change; a policy refusal or ill-formed password or logon failure with internal error restarts it |
| Credential.PasswordChangeCycle | CredentialProvider/core/CCredential.cpp:822-1628 | a must-change report asks for the new password, the success report marks it changed, and the next GetSerialization logs on and clears the flag |
| Credential.ReportOther | CredentialProvider/core/CCredential.cpp:1596-1628 | any other status leaves the change state unchanged |
| Credential.PushCallbackSpec | CredentialProvider/core/CCredential.cpp:1124-1135 | an approved push sets the push flag, auto-logon and bypass; a refusal changes nothing |
| Credential.PushThenLogon | CredentialProvider/core/CCredential.cpp:1048-1316 | an approved push, the automatic Connect and the next GetSerialization log on without asking the server: the bypass is used up and the push flag reset |
| Credential.DeselectedNeedsSecondFactor | CredentialProvider/core/CCredential.cpp:318-333 | after leaving the tile, GetSerialization packs a logon only after a second factor |
| Credential.FindActiveSession | CredentialProvider/core/CCredential.cpp:1333-1369 | the session walk answers true exactly when some active session belongs to an account with the user's SID |
| Credential.Credential.constructor | CredentialProvider/core/CCredential.cpp:62-75 | a new credential has status PI_STATUS_NOT_SET and both dialog statics E_FAIL |
| Credential.Credential.StoreLastConnectedUserIfNeeded | CredentialProvider/core/CCredential.cpp:1639-1675 | the stored values become those StoreLastUser gives |
| Credential.Credential.CheckExcludedAccount | CredentialProvider/core/CCredential.cpp:1182-1300 | the new state and the outcome are those of ExcludedStep |
| Credential.Credential.CheckBypass | CredentialProvider/core/CCredential.cpp:1304-1316 | the new state and the outcome are those of BypassStep |
| Credential.Credential.CheckContinuity | CredentialProvider/core/CCredential.cpp:1318-1375 | the new state and the outcome are those of ContinuityStep for the SID of the user name field |
| Credential.Credential.CheckTokenType | CredentialProvider/core/CCredential.cpp:1377-1419 | the new state and the outcome are those of TokenStep |
| Credential.Credential.Check | CredentialProvider/core/CCredential.cpp:1429-1446 | the new state is the one Checked gives |
| Credential.Credential.Validate | CredentialProvider/core/CCredential.cpp:1421-1545 | the new state is the one ValidateStep gives |
| Credential.Credential.Connect | CredentialProvider/core/CCredential.cpp:1138-1558 | the new state and the outcome are those of ConnectSpec |
| Credential.Credential.ShowChoiceDialog | CredentialProvider/core/CCredential.cpp:866-1004 | the dialog with its statics reset; the new state and response are those of FreshChoiceDialog |
| Credential.Credential.ClearFieldsOnce | CredentialProvider/core/CCredential.cpp:1092-1099 | only the clearFields flag changes, back to true |
| Credential.Credential.GetSerialization | CredentialProvider/core/CCredential.cpp:772-1112 | the response, the result, whether credentials were packed and the new state are those of Serialize, with the corrected dialog that resets the statics |
| Credential.Credential.ReportResult | CredentialProvider/core/CCredential.cpp:1569-1637 | only the credential's change flags change, to what ReportResultSpec gives |
| Credential.Credential.SetDeselected | CredentialProvider/core/CCredential.cpp:318-333 | only the password change in progress is forgotten |
| Credential.Credential.PushAuthenticationCallback | CredentialProvider/core/CCredential.cpp:1124-1135 | only the flags change, to what PushCallbackSpec gives |
| PamConfig.TrimProperties | worldposta-ssh-mfa/src/config.c:17-25 | trim leaves nothing exactly for an all-blank input; what remains starts with no space or tab and, when two or more characters long, ends in no white space; trimming twice changes nothing |
| PamConfig.TrimWritten | worldposta-ssh-mfa/src/config.c:19-24 | the NUL written after the last kept character makes the C string trim returns the trimmed text |
| PamConfig.SkipBlanks | worldposta-ssh-mfa/src/config.c:19 | the forward scan stops at the first character that is not a space or tab |
| PamConfig.SkipTrailing | worldposta-ssh-mfa/src/config.c:21-22 | the backward scan stops at the last character that is not white space, never before the first |
| PamConfig.TrimInPlace | worldposta-ssh-mfa/src/config.c:17-25 | trim returns a position in the buffer whose C string is the trimmed text, and writes only the one NUL after it |
| PamConfig.ParseAuthMethods | worldposta-ssh-mfa/src/config.c:28-33 | "push" and "otp" in any case select their method; anything else, "both" included, selects both |
| PamConfig.ParseLogLevel | worldposta-ssh-mfa/src/config.c:36-42 | debug, warn and error in any case select their level; anything else is INFO |
| PamConfig.Atoi | worldposta-ssh-mfa/src/config.c:86 | `atoi` is glibc's `strtol` saturated to a 64-bit `long` and then wrapped to a 32-bit `int`: always in the `int` range, and the value as written whenever that fits |
| PamConfig.TimeoutOf | worldposta-ssh-mfa/src/config.c:85-88 | the timeout is a positive `int`: atoi of the value when positive and 60 otherwise |
| PamConfig.TimeoutRange | worldposta-ssh-mfa/src/config.c:85-88 | a value within the `int` range is the timeout when positive and gives 60 otherwise; 3000000000 wraps negative and gives 60 |
| PamConfig.Truncate | worldposta-ssh-mfa/src/config.c:80-99 | a value is cut to its first 511 characters, the room in a 512-byte field |
| PamConfig.AssignOk | worldposta-ssh-mfa/src/config.c:78-102 | an assignment keeps the timeout positive, the method set and log level valid and every text within its field |
| PamConfig.AssignOverrides | worldposta-ssh-mfa/src/config.c:78-102 | of two assignments to one key only the later counts; each key sets only its own field; unknown keys are ignored |
| PamConfig.ApplyFromOk | worldposta-ssh-mfa/src/config.c:63-103 | any sequence of lines keeps the settings valid |
| PamConfig.LineEffects | worldposta-ssh-mfa/src/config.c:63-76 | an ignored line changes nothing, and of two lines setting the same key the later one wins |
| PamConfig.TrimStrips | worldposta-ssh-mfa/src/config.c:17-25 | trimming removes exactly a blank prefix and a white-space suffix around a body that has neither |
| PamConfig.AssignmentLine | worldposta-ssh-mfa/src/config.c:63-76 | the line "key = value\n" reads back as the assignment of value to key |
| PamConfig.CommentLine | worldposta-ssh-mfa/src/config.c:65-68 | a line whose first text is '#', ';' or '[' is ignored |
| PamConfig.Load | worldposta-ssh-mfa/src/config.c:44-114 | an unreadable file gives -1 and the defaults; otherwise the defaults then every line in order, and 0 exactly when both keys are set; the result is always valid |
| PamConfig.NonEmpty | worldposta-ssh-mfa/src/config.c:127-133 | strtok_r yields the non-empty pieces between commas, in order |
| PamConfig.IsUserExcluded | worldposta-ssh-mfa/src/config.c:116-137 | a user is excluded exactly when some trimmed list entry equals the name |
| PamConfig.ExcludedListed | worldposta-ssh-mfa/src/config.c:116-137 | for a list of plain names joined by commas a user is excluded exactly when listed |
| PamConfig.HasGroup | worldposta-ssh-mfa/src/config.c:169-173 | the scan finds a group id exactly when it is among the user's groups |
| PamConfig.IsUserInRequiredGroup | worldposta-ssh-mfa/src/config.c:139-179 | an empty list admits everyone; otherwise a known user is admitted exactly when some listed group exists and is one of the user's groups |
| PamConfig.Log | worldposta-ssh-mfa/src/config.c:181-200 | a message goes to syslog, unchanged, exactly when its level is at least the configured one |
| PamConfig.LogMonotone | worldposta-ssh-mfa/src/config.c:185-195 | raising the configured level never lets more messages through, and more severe levels get more urgent syslog priorities |
| PamCrypto.WriteHex | worldposta-ssh-mfa/src/crypto.c:26-29 | the `%02x` loop writes the lower-case hexadecimal text of the bytes, then a NUL, and nothing past it |
| PamCrypto.HexHasNoNul | worldposta-ssh-mfa/src/crypto.c:26-28 | hexadecimal text holds no NUL, so the C string read back is the whole text |
| PamCrypto.GenerateNonce | worldposta-ssh-mfa/src/crypto.c:14-32 | 0 exactly when the buffer holds 33 characters and the random source works, and then the buffer's C string is the 32 hexadecimal digits of the 16 random bytes; otherwise -1 and the buffer untouched |
| PamCrypto.HmacSha256 | worldposta-ssh-mfa/src/crypto.c:34-58 | 0 exactly when the buffer holds 65 characters and HMAC succeeds, and then its C string is the 64-digit hexadecimal digest; otherwise -1 and the buffer untouched |
| PamCrypto.SigningData | worldposta-ssh-mfa/src/crypto.c:67-73 | `snprintf` into a buffer of 32 + both lengths + 1 gives a prefix of timestamp, nonce and body |
| PamCrypto.NatDigits | worldposta-ssh-mfa/src/crypto.c:67 | a number below 10^k prints in at most k digits |
| PamCrypto.LongWidth | worldposta-ssh-mfa/src/crypto.c:67 | a `long` prints in at most 20 characters |
| PamCrypto.SigningDataFits | worldposta-ssh-mfa/src/crypto.c:67-73 | for any `long` timestamp the buffer is large enough: the signing string is never cut and equals the proxy's |
| PamCrypto.SignRequest | worldposta-ssh-mfa/src/crypto.c:60-79 | 0 exactly when the allocation, the buffer size and the HMAC succeed, and then the signature is the hexadecimal HMAC of timestamp, nonce and body |
| PamCrypto.SameSignatureAsProxy | worldposta-ssh-mfa/src/crypto.c:60-79 | with the same HMAC, the PAM module signs a request exactly as the proxy's signing helper does |
| PamApi.ResponseBuffer.Text | worldposta-ssh-mfa/src/api.c:17-20 | what C string functions see in the buffer is its contents up to the first NUL |
| PamApi.ResponseBuffer.constructor | worldposta-ssh-mfa/src/api.c:88-90 | a fresh buffer is empty and NUL-terminated |
| PamApi.ResponseBuffer.Write | worldposta-ssh-mfa/src/api.c:23-38 | when realloc succeeds the chunk is appended and its whole length reported; when it fails 0 is reported and the buffer is untouched |
| PamApi.Deliver | worldposta-ssh-mfa/src/api.c:23-38 | the transfer completes exactly when every chunk is taken; the buffer gains exactly the chunks up to the first refused one |
| PamApi.BuildHeaders | worldposta-ssh-mfa/src/api.c:41-75 | no headers when the nonce or signature cannot be made; otherwise the five headers over the integration key, signature, timestamp and nonce |
| PamApi.SignedHeadersMatchProxy | worldposta-ssh-mfa/src/api.c:41-75 | the signature, timestamp and nonce headers carry the values signed, uncut, and the signature is the proxy's for them |
| PamApi.RequestFor | worldposta-ssh-mfa/src/api.c:78-171 | a request goes out exactly when curl starts and headers are built, always with peer and host verification, to the endpoint joined with the path |
| PamApi.ExchangeNeedsVerifiedSuccess | worldposta-ssh-mfa/src/api.c:118-122 | an answer is used only after a TLS-verified transfer that succeeded with a 2xx status |
| PamApi.HttpRequest | worldposta-ssh-mfa/src/api.c:78-171 | 0 or -1; 0 exactly when the transfer succeeded with a 2xx status, and then the buffer's text is the answer |
| PamApi.VerifyOtp | worldposta-ssh-mfa/src/api.c:181-200 | 0 exactly when the request succeeds and the answer contains `"valid":true`; -1 otherwise |
| PamApi.ValueFrom | worldposta-ssh-mfa/src/api.c:225-227 | the text read up to `stop` never contains `stop` |
| PamApi.ValueAfter | worldposta-ssh-mfa/src/api.c:222-227 | the value read after a key never contains the closing character |
| PamApi.KeyFound | worldposta-ssh-mfa/src/api.c:222 | `strstr` finds the first occurrence of the key |
| PamApi.ValueClosed | worldposta-ssh-mfa/src/api.c:225-227 | a value closed by `stop` reads back as itself |
| PamApi.ValueFromSuffix | worldposta-ssh-mfa/src/api.c:224-227 | the value from a position depends only on the text from that position on |
| PamApi.KeyWritten | worldposta-ssh-mfa/src/api.c:222 | a key written after text in which it does not start is found where it was written |
| PamApi.ValueAfterFound | worldposta-ssh-mfa/src/api.c:222-227 | a value written after the first occurrence of its key reads back as itself |
| PamApi.RequestIdFound | worldposta-ssh-mfa/src/api.c:222-227 | an answer that begins with the requestId member yields that id |
| PamApi.Scan | worldposta-ssh-mfa/src/api.c:225 | `strchr` stops at the first `stop` from the start position, or at the end |
| PamApi.ValueAt | worldposta-ssh-mfa/src/api.c:222-227 | the scan's stop position bounds the value found after the key |
| PamApi.ValueFromAt | worldposta-ssh-mfa/src/api.c:225-227 | the scan's stop position bounds the value found from a position |
| PamApi.ValueMissing | worldposta-ssh-mfa/src/api.c:226 | with no closing quote after the key there is no id |
| PamApi.CopyOut | worldposta-ssh-mfa/src/api.c:229-230 | `strncpy` then a NUL: the buffer starts with the slice and a NUL, and nothing past them changes |
| PamApi.CopiedId | worldposta-ssh-mfa/src/api.c:229-230 | the C string read back from the copied slice is the slice |
| PamApi.CopyRequestId | worldposta-ssh-mfa/src/api.c:221-235 | 0 exactly when the answer names an id shorter than the buffer, which then holds it; -1 and the buffer untouched otherwise |
| PamApi.SendPush | worldposta-ssh-mfa/src/api.c:202-241 | 0 exactly when the request succeeds and its answer names an id that fits, which is then in the buffer; -1 and the buffer untouched otherwise |
| PamApi.StatusCode | worldposta-ssh-mfa/src/api.c:256-265 | every status text maps to one of the five codes |
| PamApi.StatusCodeNames | worldposta-ssh-mfa/src/api.c:257-265 | each of approved, denied, expired and pending comes from its own name in any case and from nothing else |
| PamApi.StatusOf | worldposta-ssh-mfa/src/api.c:249-266 | whatever the answer and the reader give, the status is one of the five codes |
| PamApi.PushStatus | worldposta-ssh-mfa/src/api.c:243-274 | a failed request reports an error; the result is always one of the five codes |
| PamApi.PushStatusCases | worldposta-ssh-mfa/src/api.c:243-274 | APPROVED exactly when the request succeeds and its status reads "approved" in any case; ERROR when the request fails, there is no status or it is not one of the four names |
| PamApi.CheckPushStatus | worldposta-ssh-mfa/src/api.c:243-274 | the status reported is that of the answer as specified |
| PamApi.WaitFrom | worldposta-ssh-mfa/src/api.c:276-300 | the wait always ends in approved, denied or expired |
| PamApi.CheckAt | worldposta-ssh-mfa/src/api.c:281 | the loop's check number `i` reports the status of the poll's `i`-th request |
| PamApi.WaitForPush | worldposta-ssh-mfa/src/api.c:276-300 | for any status function that agrees with the poll's checks, the loop's result and number of checks are those of the specification over it |
| PamApi.StatusesReport | worldposta-ssh-mfa/src/api.c:281 | the poll's own status function agrees with its checks, so the loop's contract applies to it |
| PamApi.ChecksBounded | worldposta-ssh-mfa/src/api.c:280-291 | at most `timeout` checks are made, none and EXPIRED when the timeout is not positive |
| PamApi.WaitStopsAtFirstFinal | worldposta-ssh-mfa/src/api.c:283-287 | the wait returns the first approved, denied or expired status and makes no check after it |
| PamApi.WaitRunsOut | worldposta-ssh-mfa/src/api.c:280-299 | with no final status before the counter runs out, the result is EXPIRED after exactly `timeout` checks |
| PamAuth.PromptUser | worldposta-ssh-mfa/src/pam_worldposta.c:80-117 | a failed conversation gives PAM_CONV_ERR and leaves the buffer untouched; a reply is copied cut to the buffer and NUL-padded |
| PamAuth.PromptAuthChoice | worldposta-ssh-mfa/src/pam_worldposta.c:125-146 | 1 exactly for a reply starting with '1', 2 exactly for one starting with '2', -1 otherwise |
| PamAuth.Clear | worldposta-ssh-mfa/src/pam_worldposta.c:281 | every character of the OTP buffer is zero afterwards |
| PamAuth.RemoteHostShape | worldposta-ssh-mfa/src/pam_worldposta.c:26-51 | the host is empty only for an SSH_CONNECTION starting with a space; one taken from SSH_CONNECTION is its space-free first field, shorter than 64 characters |
| PamAuth.GetRemoteHost | worldposta-ssh-mfa/src/pam_worldposta.c:26-51 | the host returned is PAM_RHOST when set, else the first field of SSH_CONNECTION when it fits, else "unknown" |
| PamAuth.MethodBits | worldposta-ssh-mfa/src/pam_worldposta.c:207-208 | push, otp and both set the bits their names say, and a valid configuration enables at least one |
| PamAuth.FirstMethod | worldposta-ssh-mfa/src/pam_worldposta.c:207-226 | with both methods the user's choice, an invalid one meaning OTP; with one method that one; with none, no method |
| PamAuth.ChooseMethod | worldposta-ssh-mfa/src/pam_worldposta.c:207-226 | the method selection picks the first method as specified |
| PamAuth.PushStep | worldposta-ssh-mfa/src/pam_worldposta.c:232-252 | approved exactly when the push is sent and then approved; the wait runs only after a push returned an id |
| PamAuth.OtpPrompt | worldposta-ssh-mfa/src/pam_worldposta.c:267-289 | the OTP step's outcome as specified: a failed prompt is PAM_AUTH_ERR with no call, else success exactly when the code is accepted, and the buffer is cleared after the check |
| PamAuth.PushThenOtp | worldposta-ssh-mfa/src/pam_worldposta.c:229-289 | a push that is not approved falls back to OTP when enabled, and the OTP buffer is cleared whenever a code was checked |
| PamAuth.ChallengeUser | worldposta-ssh-mfa/src/pam_worldposta.c:206-294 | the outcome of method selection, push and OTP is the challenge's specification, and the OTP buffer is cleared after a check |
| PamAuth.Authenticate | worldposta-ssh-mfa/src/pam_worldposta.c:149-295 | the return code and the API calls made are those of the specification of `pam_sm_authenticate`, and the OTP is wiped after use |
| PamAuth.EarlyFailures | worldposta-ssh-mfa/src/pam_worldposta.c:166-179 | no user name gives PAM_USER_UNKNOWN and a configuration that does not load gives PAM_AUTH_ERR, both with no API call |
| PamAuth.ExemptUsersSkipApi | worldposta-ssh-mfa/src/pam_worldposta.c:181-193 | an excluded user, or one outside the required groups, gets PAM_SUCCESS with no API call |
| PamAuth.SuccessNeedsSecondFactor | worldposta-ssh-mfa/src/pam_worldposta.c:149-295 | PAM_SUCCESS needs an exemption, an approved push or an accepted OTP |
| PamAuth.PushFallback | worldposta-ssh-mfa/src/pam_worldposta.c:254-263 | a push that is not approved falls back to OTP exactly when OTP is enabled, and otherwise ends in PAM_AUTH_ERR |
| PamAuth.CallOrder | worldposta-ssh-mfa/src/pam_worldposta.c:229-289 | a run makes at most one push, one wait and one OTP check, in that order, and waits only after a push |
| ProxySigning.GenerateNonce | worldposta-auth-proxy/src/api/signing.py:12-22 | a nonce of `length // 2` random bytes as lower-case hexadecimal; a negative length raises |
| ProxySigning.NonceProperties | worldposta-auth-proxy/src/api/signing.py:12-22 | the nonce decodes back to the random bytes drawn; the default nonce has 32 characters and an odd length loses one |
| ProxySigning.SigningString | worldposta-auth-proxy/src/api/signing.py:41-42 | the signed message is the decimal timestamp, then the nonce, then the body |
| ProxySigning.GenerateSignature | worldposta-auth-proxy/src/api/signing.py:25-51 | the signature is hexadecimal, 64 characters for a 32-byte digest |
| ProxySigning.AuthHeaders | worldposta-auth-proxy/src/api/signing.py:54-80 | exactly the five headers, with the JSON content type, the integration key, the decimal timestamp and a 32-digit hexadecimal nonce |
| ProxySigning.HeadersVerify | worldposta-auth-proxy/src/api/signing.py:54-80 | recomputing the HMAC over the timestamp and nonce headers and the body gives the signature header: every header set verifies for its body |
| ProxyClient.RStrip | worldposta-auth-proxy/src/api/worldposta_client.py:41 | `rstrip` removes exactly the trailing run of the character: a prefix, not ending in it, followed only by it |
| ProxyClient.NewClient | worldposta-auth-proxy/src/api/worldposta_client.py:34-45 | the endpoint is stored without trailing slashes, the keys and timeout as given |
| ProxyClient.BuildRequest | worldposta-auth-proxy/src/api/worldposta_client.py:60-91 | the URL is endpoint then path; GET in any case sends no body, every other method posts the body text |
| ProxyClient.RequestSigned | worldposta-auth-proxy/src/api/worldposta_client.py:77-79 | every request carries the integration key and a signature that verifies over its body text, "{}" for an empty body |
| ProxyClient.RequestResult | worldposta-auth-proxy/src/api/worldposta_client.py:81-101 | success exactly for a response with status below 300; an exception gives failure with its text under "error" |
| ProxyClient.VerifyOtp | worldposta-auth-proxy/src/api/worldposta_client.py:103-126 | true exactly when the call succeeds and `valid` is truthy |
| ProxyClient.SendPush | worldposta-auth-proxy/src/api/worldposta_client.py:128-163 | the request id exactly when the call succeeds and the answer has one |
| ProxyClient.CheckPushStatusCases | worldposta-auth-proxy/src/api/worldposta_client.py:165-191 | a failed call is ERROR; otherwise each of the four names, in any case, gives its status and only it does |
| ProxyClient.EffectiveTimeout | worldposta-auth-proxy/src/api/worldposta_client.py:210 | a missing or zero timeout falls back to the client's |
| ProxyClient.WaitFrom | worldposta-auth-proxy/src/api/worldposta_client.py:215-232 | the wait always ends in approved, denied or expired |
| ProxyClient.WaitForPush | worldposta-auth-proxy/src/api/worldposta_client.py:193-232 | the loop returns the specified outcome over the clock readings and checks, with the effective timeout |
| ProxyClient.WaitDecided | worldposta-auth-proxy/src/api/worldposta_client.py:215-229 | the first approved, denied or expired check before the deadline, after only pending or failed ones, gives the result |
| ProxyClient.ApprovedDecided | worldposta-auth-proxy/src/api/worldposta_client.py:215-220 | an approval always comes from such a deciding check |
| ProxyClient.NoTimeNoCheck | worldposta-auth-proxy/src/api/worldposta_client.py:215-232 | a timeout of zero or less expires without a check |
| ProxyClient.AuthenticatePushApproved | worldposta-auth-proxy/src/api/worldposta_client.py:234-268 | a push succeeds exactly when it was sent, got a truthy id and a deciding check before the deadline saw it approved |
| ProxyEngine.LastComma | worldposta-auth-proxy/src/auth/engine.py:69-70 | the position found holds a comma and no comma follows it; none exactly when there is no comma |
| ProxyEngine.ParsePassword | worldposta-auth-proxy/src/auth/engine.py:54-72 | no factor exactly when the password has no comma; otherwise password, comma and a comma-free factor rebuild the input |
| ProxyEngine.ParsePasswordUnique | worldposta-auth-proxy/src/auth/engine.py:69-71 | any split into a password and a comma-free factor is the one `rsplit` finds |
| ProxyEngine.AuthenticatePrimary | worldposta-auth-proxy/src/auth/engine.py:74-94 | the directory's answer for this user name and password when one is configured, else success with "Pass-through" |
| ProxyEngine.AuthenticatePushResult | worldposta-auth-proxy/src/auth/engine.py:96-123 | a push ends in SUCCESS exactly when the API client's push for this user, device and IP is approved, and in PUSH_TIMEOUT otherwise |
| ProxyEngine.AuthenticateOtpResult | worldposta-auth-proxy/src/auth/engine.py:125-139 | an OTP check ends in SUCCESS exactly when the API accepts this code for this user, and in OTP_INVALID otherwise |
| ProxyEngine.Authenticate | worldposta-auth-proxy/src/auth/engine.py:141-210 | the result is one of the five outcomes |
| ProxyEngine.SecondFactorChoice | worldposta-auth-proxy/src/auth/engine.py:178-202 | a non-empty factor "push" in any case pushes to the user, six or more characters for which `str.isdigit()` holds (the engine's digit class, which contains at least the ASCII digits) are checked as that user's OTP code, anything else is refused; without a factor mode "otp" is refused and any other mode pushes |
| ProxyEngine.AsciiCodeIsOtp | worldposta-auth-proxy/src/auth/engine.py:185-187 | whatever the digit class and the mode, a password ending in a comma and six or more ASCII digits sends those digits as the OTP code |
| ProxyEngine.AuthenticateOutcome | worldposta-auth-proxy/src/auth/engine.py:141-210 | PRIMARY_FAILED, with the directory's message, exactly when the directory rejects this user with the password stripped of its appended factor; SUCCESS exactly when it accepts and the chosen factor is confirmed for this user (a push to this user, device and IP, or the appended code for this user, where a code is six or more characters of the digit class); ERROR exactly when it accepts and no factor can be chosen |
| ProxyEngine.OtpModeNeedsCode | worldposta-auth-proxy/src/auth/engine.py:195-197 | mode "otp" without an appended code is refused with "OTP code required" |
| ProxyEngine.OtherModesAlike | worldposta-auth-proxy/src/auth/engine.py:187-202 | every mode other than "push" and "otp" authenticates exactly as "auto" |
| ProxyConfig.DigitsOfNat | worldposta-auth-proxy/src/config.py:148 | the decimal text of a number is all digits and reads back as that number |
| ProxyConfig.ParseInt | worldposta-auth-proxy/src/config.py:148 | a string of decimal digits reads as its value |
| ProxyConfig.UnderscoreLiterals | worldposta-auth-proxy/src/config.py:169 | `int` skips single underscores between digits ("1_812" is 1812) and raises on a leading, trailing or doubled one |
| ProxyConfig.ParseIntRoundTrip | worldposta-auth-proxy/src/config.py:148 | `int` reads every integer written in decimal back as itself |
| ProxyConfig.RadiusMode | worldposta-auth-proxy/src/config.py:173-179 | "_auto" wins, then "_concat", then "_challenge"; otherwise the default auto |
| ProxyConfig.IpKeyInjective | worldposta-auth-proxy/src/config.py:183-185 | distinct client numbers give distinct option names |
| ProxyConfig.IpKeysCard | worldposta-auth-proxy/src/config.py:183 | the names radius_ip_1 to radius_ip_n are n distinct names |
| ProxyConfig.KeysBound | worldposta-auth-proxy/src/config.py:182-188 | there are never more consecutive client numbers than options, so the loop ends |
| ProxyConfig.ClientsFrom | worldposta-auth-proxy/src/config.py:182-188 | one client per consecutive radius_ip number, with its secret or "", up to the first missing number |
| ProxyConfig.ConfigParser.ReadClients | worldposta-auth-proxy/src/config.py:182-188 | the loop reads exactly the clients of the specification |
| ProxyConfig.SectionScope | worldposta-auth-proxy/src/config.py:121-135 | each section changes only its own part: the named maps gain only that section, an unknown section changes nothing, and only the API section can raise after changing anything |
| ProxyConfig.RadiusSectionStored | worldposta-auth-proxy/src/config.py:165-190 | a radius_server section that parses is stored under its own name with its port, its mode and all its clients |
| ProxyConfig.ApiCredentialsKept | worldposta-auth-proxy/src/config.py:143-148 | the endpoint and keys are kept even when push_timeout does not parse, and the timeout is set exactly when it does |
| ProxyConfig.ValidIff | worldposta-auth-proxy/src/config.py:205-227 | validation reports nothing exactly when both API keys are set, every referenced directory exists and every RADIUS server has clients |
| ProxyConfig.DefaultRejected | worldposta-auth-proxy/src/config.py:210-213 | every configuration whose API part is the default (no or an empty worldposta_api section), whatever its other sections, is rejected for both missing keys |
| ProxyConfig.ConfigParser.constructor | worldposta-auth-proxy/src/config.py:95-97 | a new parser starts from the default configuration |
| ProxyConfig.ConfigParser.ParseSection | worldposta-auth-proxy/src/config.py:121-203 | the configuration afterwards, and whether the section raised, are those of the section specification |
| ProxyConfig.ConfigParser.Validate | worldposta-auth-proxy/src/config.py:205-227 | validation passes exactly for a well-formed configuration |
| ProxyConfig.Readable | worldposta-auth-proxy/src/config.py:115-116 | the sections handed over are the INI parser's, in order, up to the first whose values fail to interpolate |
| ProxyConfig.ConfigParser.Parse | worldposta-auth-proxy/src/config.py:108-119 | a failed read of the file raises with nothing changed; otherwise every readable section in order, stopping at the first that raises, then validation: success exactly when the file was read, every section interpolated, none raised and the result is well formed |
| ProxyConfig.SectionDefaults | worldposta-auth-proxy/src/config.py:137-148 | empty main and worldposta_api sections give log level INFO, no debugging, the public endpoint, empty keys and a 60-second push timeout |
| RadiusServer.ClientTable | worldposta-auth-proxy/src/radius/server.py:66-69 | the table knows exactly the configured client IPs |
| RadiusServer.ClientTableLast | worldposta-auth-proxy/src/radius/server.py:68-69 | an IP configured more than once gets the secret of its last entry |
| RadiusServer.PendingKeyInjective | worldposta-auth-proxy/src/radius/server.py:97-112 | the pending key tells every (IP, port, Identifier) triple apart, IPv6 addresses with colons included |
| RadiusServer.UnexpiredExact | worldposta-auth-proxy/src/radius/server.py:116-125 | cleanup keeps exactly the entries at most 120 seconds old, unchanged; a second cleanup changes nothing and a fresh mark survives |
| RadiusServer.CallerIp | worldposta-auth-proxy/src/radius/server.py:209 | the engine is given the Calling-Station-Id when it is non-empty, and the source IP otherwise |
| RadiusServer.AuthAnswerCases | worldposta-auth-proxy/src/radius/server.py:203-224 | the engine authenticates the packet's User-Name and User-Password with the NAS address as the device; Access-Accept exactly when it reports success, Access-Reject with the engine's message otherwise, no reply when the engine raises, and every reply echoes the request's Identifier |
| RadiusServer.ModesAlike | worldposta-auth-proxy/src/radius/server.py:205-211 | the configured modes auto, concat and challenge authenticate alike, and a password without a factor triggers a push |
| RadiusServer.Server.constructor | worldposta-auth-proxy/src/radius/server.py:56-73 | a new server keeps its mode, builds the client table and has nothing pending |
| RadiusServer.Server.MarkPending | worldposta-auth-proxy/src/radius/server.py:100-108 | the request's key is recorded with the current time, and it is then a duplicate |
| RadiusServer.Server.ClearPending | worldposta-auth-proxy/src/radius/server.py:110-114 | the request's key is removed, whether or not it was there, and it is no longer a duplicate |
| RadiusServer.Server.CleanupPending | worldposta-auth-proxy/src/radius/server.py:116-125 | exactly the entries older than 120 seconds are deleted |
| RadiusServer.Server.HandleAuthRequest | worldposta-auth-proxy/src/radius/server.py:162-227 | a duplicate gets the empty answer without consulting the engine; otherwise the engine's answer, and the pending table is as before |
| RadiusServer.Server.HandlePacket | worldposta-auth-proxy/src/radius/server.py:229-253 | an unknown client, an empty secret, an undecodable datagram, a packet without attributes (false as a dictionary) or a code other than Access-Request get no answer and change nothing; an Access-Request with attributes gets the authentication answer, or the empty answer when it is a duplicate |
| LdapServer.FirstRdnValue | worldposta-auth-proxy/src/ldap/server.py:73-79 | the first component's value holds no comma |
| LdapServer.FirstRdnOf | worldposta-auth-proxy/src/ldap/server.py:73-74 | the value of the first component runs from past its attribute to the first comma |
| LdapServer.ExtractCn | worldposta-auth-proxy/src/ldap/server.py:71-74 | a DN starting with CN= in any case names the user up to the first comma |
| LdapServer.ExtractUid | worldposta-auth-proxy/src/ldap/server.py:76-79 | a DN starting with uid= names the user up to the first comma |
| LdapServer.ExtractEmail | worldposta-auth-proxy/src/ldap/server.py:81-83 | an address without '=' names the user before its '@' |
| LdapServer.ExtractDomainAccount | worldposta-auth-proxy/src/ldap/server.py:85-87 | DOMAIN\account names the account after the last backslash |
| LdapServer.BindOutcome | worldposta-auth-proxy/src/ldap/server.py:93-146 | an anonymous bind succeeds whatever the engine would say; otherwise success exactly when the engine reports it, invalid credentials with its message on failure, an operations error when it raises |
| LdapServer.BindNeedsBothFactors | worldposta-auth-proxy/src/ldap/server.py:116-140 | a non-anonymous bind succeeds only when the directory accepted the password for the user the DN names and the chosen second factor was confirmed for that user, from this peer |
| LdapServer.HandleSearch | worldposta-auth-proxy/src/ldap/server.py:148-162 | a search is answered with an empty, successful result |
| LdapServer.ExtractUnchanged | worldposta-auth-proxy/src/ldap/server.py:89-90 | a name in none of the four forms is passed on unchanged |

## Left out

- Transport: WinHTTP, libcurl, aiohttp, the UDP socket with pyrad's packet codec, and the Twisted reactor are not modelled. Each exchange is a parameter: the stage that failed or the body read; curl's result, status and body chunks; an aiohttp response or exception; a decoded packet.
- Cryptography: HMAC-SHA256, DPAPI's CryptProtectData/CryptUnprotectData, `random_device`/`mt19937`, `RAND_bytes` and `secrets` are uninterpreted functions or values. SHA-256 itself is not modelled.
- Concurrency and time:
  - The detached poll thread and the atomic `_runPoll` flag are modelled sequentially.
  - asyncio locks and every sleep are not modelled.
  - Poll loops read an abstract sequence of statuses and clock readings.
  - RADIUS requests are handled one after another. Overlapping requests are not modelled.
- UI and COM plumbing are not modelled:
  - the AuthDialog drawing and its callbacks, whose (choice, status) outcome is an oracle;
  - message texts, `ShowErrorMessage`, `ResetScenario`, field clearing and visibility, num-lock handling and sleeps;
  - `CommandLinkClicked`, `SetSelected`, `Initialize` and the field getters and setters.
- Packing: CredUI and Kerberos credential packing are one packer oracle.
- Not part of this model:
  - the `PrivacyIDEA` base class with its `getCleanUsername`;
  - `CCredential.h`, `Codes.h`, `RegistrySecurity.cpp` and `ad_client.py`;
  - `main.py` and `logging_setup.py`.
- Strings: UTF-8/UTF-16 conversions are the identity, and case mapping is ASCII only.
- Credential.Credential:
  - The function-local statics of `GetSerialization` are fields of the credential. This assumes one credential per LogonUI process.
  - The initial `_piStatus` is PI_STATUS_NOT_SET.
  - The 1024-character `wcscpy_s` limit is not modelled.
  - `getSid` is not modelled; a failed lookup uses the history key "".
  - An unchecked `GetComputerName` in the default join branch gives an empty name.
- Credential.Credential.Connect: the PI_TRIGGERED_CHALLENGE branch, including its `asyncPollPush`, is unreachable with the MultiOTP backend. `Credential.NoChallengeWithMultiOtp` proves this, so that branch has no further model.
- Credential.Credential.GetSerialization: the dialog branch depends only on the oracle's (choice, status) answer and the stored statics. The dialog's own behaviour is not modelled.
- Credential.Credential.GetSerialization: follows the corrected dialog of the Findings row, which resets the statics before each dialog; the source never resets them. `GetSerialization` as written is `Credential.SerializeWith` with `reset` false, over `Credential.ChoiceDialog`.
- Credential.Serialize: is `Credential.SerializeWith` with the statics reset, the corrected behaviour of the Findings row, not `GetSerialization` as written.
- MultiOtp.Client.ValidateCheck: the first step sends "sms" as the OTP, which the push path treats as "push". This matches the source.
- WorldPostaApi.Api.MakeRequest: requires an endpoint that the URL split accepts. A port that `std::stoi` rejects makes the source throw, and that case is not modelled. The same applies to the callers of `MakeRequest`.
- PamConfig.Load: takes the lines as `fgets` returns them. How lines longer than the 1024-byte buffer are split is not modelled.
- PamConfig.Atoi: assumes glibc on a 64-bit Linux system, where `long` has 64 bits and the conversion to `int` keeps the value modulo 2^32.
- PamConfig.IsUserInRequiredGroup: `getgrouplist`'s 64-group limit is modelled only as its failure (`None`).
- PamApi.PushStatus: `json_tokener_parse` and `json_object_get_string` are one reader function from the body text to an optional status.
- ProxyConfig.ConfigParser.Parse: configparser's reading is a parameter. Its lower-casing of keys, the merging of DEFAULT keys into each section and the interpolation of values are not modelled; only whether the read and each section's interpolation raise is.
- ProxyConfig.ParseInt: Python's `int` also accepts white space around the literal and non-ASCII decimal digits. configparser strips the values it returns, and non-ASCII digits are not modelled.
- ProxyClient.CheckPushStatus: a `status` that is not a string is modelled as ERROR. In the source, `.lower()` raises there instead.
- ProxyClient.RequestResult: a response body is taken to decode to a JSON object; a body that decodes to a list is not modelled.
- RadiusServer.Server.HandlePacket: the reply's packet encoding (authenticator, Reply-Message attribute) belongs to pyrad and is not modelled. The model keeps the code, the Identifier and the message.
- LdapServer.HandleBind: the reply is the result code, or the exception's message. ldaptor's encoding is not modelled.
- Logging: `syslog` and Python logging are not modelled, beyond the `config_log` level filter.

## Findings

| source | as written | input that shows it | evidently intended | confidence | as-written member | corrected member |
|---|---|---|---|---|---|---|
| CredentialProvider/core/CCredential.cpp:878-976 | the method-choice dialog keeps `s_piStatus` and `s_otpStatus` in function-local statics that are never reset, and copies `s_otpStatus` into `_piStatus` even when the OTP dialog is cancelled | a second logon in the same LogonUI process, after an earlier accepted OTP, where the user chooses OTP and cancels the dialog | a cancelled dialog logs nobody on; each logon starts from a fresh dialog status | medium, not executed; the AuthDialog.h in the tree declares none of SetPushCallback, SetOTPVerifyCallback and NotifyPushResult, so the callback that writes `s_otpStatus` belongs to a dialog version outside the tree | Credential.ChoiceDialog, Credential.StaleOtpStatusLogsOn | Credential.FreshChoiceDialog, Credential.Credential.ShowChoiceDialog, Credential.Serialize, Credential.Credential.GetSerialization, Credential.LogonNeedsSecondFactor |
| CppClientCore/CppClientCore/WorldPostaAPI.cpp:255-257 | `verifyTOTP` returns `_lastError` when the response is empty, and `_lastError` is still WP_AUTH_SUCCESS when no failure preceded it | a first `verifyTOTP` call whose HTTP exchange succeeds with an empty body | an empty answer is an error, and only a "valid": true answer authenticates | high, not executed | WorldPostaApi.EmptyAnswerAuthenticates, WorldPostaApi.Api.VerifyTotpAsWritten | WorldPostaApi.TotpOutcomeSuccess, WorldPostaApi.Api.VerifyTotp |
