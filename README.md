# XSTS authorization and skin validation, modelled in Dafny

This project models two decision procedures of the launcher's Microsoft-account
and skin code. It proves what each one promises.

**The XSTS authorization step** (`XboxAuthorizationStep`) asks the Xbox XSTS
service to authorize the stored Xbox user token for one relying party. It then
turns the reply into exactly one reported outcome: `STATE_WORKING` or
`STATE_FAILED_SOFT`, with a fixed user-facing message. The failure paths are:

- a transport error;
- an authentication-required reply whose body is not JSON;
- a reply whose body has no numeric `XErr`;
- one of eight known `XErr` codes, or an unknown code;
- a success body that does not parse;
- a user hash (`uhs`) that differs from the stored one.

Only on success does the step write the parsed token into the relying-party token
slot it was given. The user-hash comparison uses the non-const `QVariantMap::operator[]`.
So a missing `uhs` is inserted as an empty value on both sides. Two absent hashes
therefore compare equal, and the stored user token can gain an empty `uhs` entry.

**Skin validation** (`SkinUtils`) accepts a skin file only under these
conditions:

- it is under 64·64·4 = 16384 bytes;
- it is a file with a `png` suffix in any case (when read from a path);
- it decodes to an image 64 wide and 32 or 64 high.

A skin without an alpha channel gets one: every pixel of the top-left pixel's
colour becomes fully transparent. The texture id is the hex SHA-256 digest of
the pixels. They are read column by column, as R, G, B, A bytes. A fully
transparent pixel is read as four zero bytes.

Files:

- `wrappers.dfy`: `Option`.
- `text.dfy`: the decimal rendering of integers and lower-case hex rendering
  of bytes, each with a parser and a round-trip proof.
- `xbox_authorization.dfy`: the XSTS step. `HandleReply` is the specification
  of one reply. The `XboxAuthorizationStep` class holds the account data and the
  token slot, and its `OnRequestDone` method updates them.
- `skin_utils.dfy`: the skin byte stream and its lemmas, alpha synthesis, the
  `Image` class over an `array2` of pixels, `HashSkin`, `ReadSkinFromData` and
  `ReadSkinFromFile`.

Some things are parameters of the model:

- PNG decoding is a function `decode` from bytes to an optional decoded image.
  `None` stands for the null image, which is 0 wide.
- SHA-256 is a function `sha256` from bytes to a digest.
- Reading the file is given as its result, with `None` when reading throws.
- File metadata (`QFileInfo`) is given as a plain value.
- A reply to the XSTS request is a value that already carries the transport
  error, what the JSON parser and the number reader make of the error body,
  and what the token parser makes of the success body.

## Model

| member | source | states |
|---|---|---|
| XboxAuthorization.Describe | launcher/minecraft/auth/steps/XboxAuthorizationStep.cpp:19-21 | the progress text opens with "Getting authorization to access ", then names the authorization kind, then " services." |
| XboxAuthorization.RequestBody | launcher/minecraft/auth/steps/XboxAuthorizationStep.cpp:24-36 | the request body carries `"SandboxId": "RETAIL"` and `"TokenType": "JWT"` at their fixed places in the template |
| XboxAuthorization.RequestBodyRoundTrip | launcher/minecraft/auth/steps/XboxAuthorizationStep.cpp:24-36 | a reader of the body recovers exactly the stored user token (the one `UserTokens` entry) and the relying party, provided neither contains a double quote |
| XboxAuthorization.Subscript | launcher/minecraft/auth/steps/XboxAuthorizationStep.cpp:78 | non-const `operator[]` yields the value at the key, inserts a default-constructed value when the key is absent, and keeps every other entry |
| XboxAuthorization.Touched | launcher/minecraft/auth/steps/XboxAuthorizationStep.cpp:78 | looking up `uhs` leaves the token value and the `uhs` claim as seen, always leaves a `uhs` key, and changes the token exactly when it had no `uhs` |
| XboxAuthorization.ProcessStsError | launcher/minecraft/auth/steps/XboxAuthorizationStep.cpp:92-190 | reports nothing (returns false) unless the error is authentication-required; then reports `FAILED_SOFT` with the JSON-parse message, the missing-`XErr` message or the code's message |
| XboxAuthorization.XErrMessage | launcher/minecraft/auth/steps/XboxAuthorizationStep.cpp:118-186 | a code outside the eight known ones gets "XSTS authentication ended with unrecognized error(s):" followed by the code in decimal; no known code's message has that opening |
| XboxAuthorization.XErrMessageInjective | launcher/minecraft/auth/steps/XboxAuthorizationStep.cpp:118-186 | every code, known or not, gets its own message: equal messages mean equal codes |
| XboxAuthorization.UnrecognizedMessageNamesCode | launcher/minecraft/auth/steps/XboxAuthorizationStep.cpp:180-186 | the decimal code can be read back from an unrecognized-code message |
| XboxAuthorization.NoProfileSaysBuyTheGame | launcher/minecraft/auth/steps/XboxAuthorizationStep.cpp:134-141 | code 2148916233 tells the user to buy the game |
| XboxAuthorization.TransportFailureMessage | launcher/minecraft/auth/steps/XboxAuthorizationStep.cpp:58-66 | the message for a transport error other than authentication-required names the authorization kind (corrected form, see Findings) |
| XboxAuthorization.TransportFailureMessageNamesError | launcher/minecraft/auth/steps/XboxAuthorizationStep.cpp:61-64 | distinct transport errors give distinct messages under the corrected form |
| XboxAuthorization.TransportFailureMessageAsWritten | launcher/minecraft/auth/steps/XboxAuthorizationStep.cpp:63 | as written, the message is the fixed prefix, then the kind right-aligned with spaces to a width of the error's value (or the kind's length, if larger), then " services. Error %2." with the `%2` placeholder left in |
| XboxAuthorization.TransportFailureMessageAsWrittenLosesError | launcher/minecraft/auth/steps/XboxAuthorizationStep.cpp:63 | as written, errors 1 and 2 give the same message for kind "Xbox Live"; the corrected messages differ |
| XboxAuthorization.HandleReply | launcher/minecraft/auth/steps/XboxAuthorizationStep.cpp:47-89 | never `FAILED_HARD`; `WORKING` exactly when a token is written; a token is written exactly when there is no transport error, the body parses and the `uhs` claims agree (absent counting as empty); the written token is the parsed one after the `uhs` lookup; each failure path has its own message (the corrected one for a transport error, see "## Left out"); the user token changes only by that lookup and only once the body has parsed |
| XboxAuthorization.TransportFailureReport | launcher/minecraft/auth/steps/XboxAuthorizationStep.cpp:58-66 | a transport error other than authentication-required fails softly, writes no token, leaves the user token alone, and its message names the authorization kind, in the corrected form and as written alike |
| XboxAuthorization.AbsentHashesPass | launcher/minecraft/auth/steps/XboxAuthorizationStep.cpp:78-88 | when neither token carries `uhs`, the step succeeds, and both the written token and the user token gain an empty `uhs` claim |
| XboxAuthorization.HandleReplyStable | launcher/minecraft/auth/steps/XboxAuthorizationStep.cpp:78-88 | handling the same reply again against the user token left behind gives the same report, user token and write |
| XboxAuthorization.XboxAuthorizationStep.constructor | launcher/minecraft/auth/steps/XboxAuthorizationStep.cpp:9-15 | the step keeps the account data, the token slot, the relying party and the authorization kind it is given |
| XboxAuthorization.XboxAuthorizationStep.OnRequestDone | launcher/minecraft/auth/steps/XboxAuthorizationStep.cpp:47-89 | returns the one report `HandleReply` gives; the account's user token becomes `HandleReply`'s; the slot becomes the written token on success and is otherwise left alone |
| Text.DecimalRoundTrip | launcher/minecraft/auth/steps/XboxAuthorizationStep.cpp:183 | the decimal rendering of a 64-bit code parses back to the code, negative codes included |
| Text.HexRoundTrip | launcher/skins/SkinUtils.cpp:41 | the lower-case hex rendering of the digest parses back to the digest |
| SkinUtils.PixelBytes | launcher/skins/SkinUtils.cpp:25-38 | a pixel contributes four bytes: R, G, B, A when its alpha is non-zero, four zeros when it is fully transparent |
| SkinUtils.SkinBytesLength | launcher/skins/SkinUtils.cpp:21-40 | an image `w` wide and `h` high yields exactly 4·w·h bytes |
| SkinUtils.SkinBytesAt | launcher/skins/SkinUtils.cpp:21-39 | byte `k` of pixel (x, y) is at offset 4·h·x + 4·y + k: x is the outer loop, y the inner one |
| SkinUtils.TransparentColourIgnored | launcher/skins/SkinUtils.cpp:20-38 | two images that differ only in the colour of fully transparent pixels give the same byte stream, hence the same id |
| SkinUtils.StreamDeterminesVisiblePixels | launcher/skins/SkinUtils.cpp:25-38 | conversely, two images of one shape with the same stream agree on every alpha and on the colour of every visible pixel |
| SkinUtils.HashSkin | launcher/skins/SkinUtils.cpp:17-42 | the loops feed the hash exactly the column-major stream, and the id is its hex digest |
| SkinUtils.MaskOut | launcher/skins/SkinUtils.cpp:94-96 | the masked image has the same shape, and each pixel is made fully transparent exactly when it has the key colour |
| SkinUtils.AlphaSynthesis | launcher/skins/SkinUtils.cpp:94-96 | without an alpha channel, the top-left pixel and every pixel of its colour become fully transparent; every other pixel stays opaque with its colour |
| SkinUtils.MaskedColourIgnored | launcher/skins/SkinUtils.cpp:94-98 | the id of a masked skin does not depend on the colour a masked pixel keeps |
| SkinUtils.Image.Assign | launcher/skins/SkinUtils.cpp:88 | `imageOut = img` gives the image a fresh copy of the decoded pixels and alpha flag |
| SkinUtils.Image.SetAlphaFromTopLeft | launcher/skins/SkinUtils.cpp:94-96 | the pixels become the masked image keyed on the original top-left pixel, in place, and the image has an alpha channel |
| SkinUtils.ReadSkinFromData | launcher/skins/SkinUtils.cpp:71-100 | accepts exactly data under 16384 bytes that decode to 64 × 32 or 64 × 64; on rejection both outputs are untouched; on acceptance the image is the decoded one (masked when it had no alpha) and the id is that image's hash |
| SkinUtils.PngSuffixAnyCase | launcher/skins/SkinUtils.cpp:51-54 | the suffix check accepts exactly "png" in any letter case |
| SkinUtils.ReadSkinFromFile | launcher/skins/SkinUtils.cpp:43-69 | the key is always the base name. Rejection of a non-file, a non-PNG suffix, a size of 16384 or more, or a failed read leaves data, image and id untouched. Otherwise it reads the contents and behaves as `ReadSkinFromData` on them |

## Findings

| source | as written | input that shows it | evidently intended | confidence | as-written member | corrected member |
|---|---|---|---|---|---|---|
| launcher/minecraft/auth/steps/XboxAuthorizationStep.cpp:63 | `.arg(m_authorizationKind, error)` passes the `NetworkError` enum. The only viable `QString::arg` overload takes it as the integer field width of the first argument. So the kind is right-aligned to that width and `%2` stays in the text | kind "Xbox Live" with errors 1 and 2: both give "Failed to get authorization for Xbox Live services. Error %2." | "Failed to get authorization for Xbox Live services. Error 1." — the error's value in the message | not executed; medium (rests on C++ overload resolution against Qt's `QString::arg` overloads) | TransportFailureMessageAsWritten, TransportFailureMessageAsWrittenLosesError | TransportFailureMessage, TransportFailureMessageNamesError |

`HandleReply` and `OnRequestDone` use the corrected message (see "## Left out").
`TransportFailureReport` states what holds of that report under both forms.

## Left out

- HandleReply: for a transport error other than authentication-required, it reports the corrected `TransportFailureMessage` ("Error <code>.") rather than the `TransportFailureMessageAsWritten` text the program shows (the kind padded to the error's value as width, then a literal `%2`). Everything else about that report is the same under both forms, as `TransportFailureReport` states.
- XboxAuthorizationStep.OnRequestDone: it returns `HandleReply`'s report, so it too gives the corrected transport-error message described on the line above.
- Only the token value and its extra claims of `Katabasis::Token` are modelled. `token = temp` (XboxAuthorizationStep.cpp:86) also copies the validity, the issue and expiry times and the refresh token, and those fields are not modelled.
- Network plumbing is not modelled: the XSTS URL and headers, `AuthRequest::post`, the UTF-8 encoding of the body, signal/slot wiring, `sender()`/`deleteLater` and logging. The reply is an input. The `finished` emission is the returned `Report`.
- `QJsonDocument::fromJson`, `Parsers::getNumber` and `Parsers::parseXTokenResponse` are not modelled. Their results are fields of `Reply`.
- The message text of `jsonError.errorString()` is not modelled. It is carried as a string in `ErrorBody.NotJson`.
- `tr()` localisation is not modelled. Messages are the untranslated source texts.
- Field values are substituted into the messages and into the request body as they are: the template does no escaping. So `RequestBodyRoundTrip` needs fields without a double quote.
- `QVariant` comparison is modelled as equality of `Claim` values. The only kinds of value modelled are the default-constructed one and a string. Conversions between other variant types are not modelled.
- Only `STATE_WORKING`, `STATE_FAILED_SOFT` and `STATE_FAILED_HARD` of the task-state enum are modelled. The enum's declaration is not part of this model.
- The account state machine, the pipeline runner, usage counting and cancellation are not part of this model. launcher/minecraft/auth/MinecraftAccount.h is declarations that delegate to code that is not part of this model. launcher/minecraft/auth/steps/SetSkinStep.h is a declaration without logic.
- PNG decoding (`QImage::fromData`) and SHA-256 are parameters, not modelled algorithms. `hasAlphaChannel` is the decoder's flag. A decoded image without an alpha channel is assumed to report every pixel opaque, as `QImage::pixel` does.
- The colour of the pixels masked by `setAlphaChannel`: Qt may store them premultiplied (as zeros). The model keeps their colour and sets alpha 0. `MaskedColourIgnored` shows the texture id is the same either way.
- `QString::toLower` is modelled as ASCII lower-casing. Non-ASCII case mappings of the suffix are not modelled.
- `QFileInfo` is given as a plain value holding the base name, the is-file flag, the suffix and the size. Path parsing is not modelled.
- `FS::read` is given as its result, and its exception path as `None`. The warning it logs is not modelled.
- Qt's implicit sharing of `QImage` is not modelled. `imageOut = img` is a fresh copy of the pixels.
