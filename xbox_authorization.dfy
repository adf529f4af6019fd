/**
  The XSTS authorization step of the Microsoft-account login pipeline.

  The step sends one authorization request for a relying party, built from
  the stored Xbox user token, and turns the reply into exactly one reported
  outcome, `StateWorking` or `StateFailedSoft`, with a fixed user-facing
  message. It writes at most once into the relying-party token slot it was
  given, and only on success. The reply is an input here. It already carries
  the transport error, what the error body parses to and the parsed success
  token.
*/
module XboxAuthorization {
  import opened Wrappers
  import opened Text

  newtype int64 = x: int | -0x8000_0000_0000_0000 <= x < 0x8000_0000_0000_0000

  // ---------------------------------------------------------------- data model

  /** A value in a token's claim map (a `QVariant`); `Empty` is the default-constructed one. */
  datatype Claim = Empty | Str(s: string)

  /** A token: its opaque value and its extra claims, notably the user hash `uhs`. */
  datatype Token = Token(token: string, extra: map<string, Claim>)

  /** A `QNetworkReply::NetworkError` value. */
  type NetworkError = nat

  const NoError: NetworkError := 0
  const AuthenticationRequiredError: NetworkError := 204

  /** What the JSON parser and the number reader make of an error reply's body. */
  datatype ErrorBody =
    | NotJson(errorString: string)  // the body is not valid JSON
    | Json(xErr: Option<int64>)     // valid JSON; the numeric `XErr` member, if there is one

  /**
    One reply to the authorization request: the transport error, the error
    body's parse and the success body's parse into a token (`None` when the
    success body does not parse).
  */
  datatype Reply = Reply(error: NetworkError, errorBody: ErrorBody, parsedToken: Option<Token>)

  /** Task states a step reports. This step never reports `StateFailedHard`. */
  datatype TaskState = StateWorking | StateFailedSoft | StateFailedHard

  /** One `finished` emission: the state and the user-facing message. */
  datatype Report = Report(state: TaskState, message: string)

  const UserHashKey := "uhs"

  /** The claim at `key`, the default-constructed value when there is none. */
  function ClaimOf(t: Token, key: string): Claim {
    if key in t.extra then t.extra[key] else Empty
  }

  /**
    Non-const `QVariantMap::operator[]`: yields the value at `key` and, when
    the key is absent, inserts a default-constructed value under it first.
  */
  function Subscript(m: map<string, Claim>, key: string): (r: (map<string, Claim>, Claim))
    ensures r.0.Keys == m.Keys + {key}
    ensures forall k :: k in m ==> r.0[k] == m[k]
    ensures r.1 == r.0[key]
    ensures key !in m ==> r.1 == Empty
  {
    if key in m then (m, m[key]) else (m[key := Empty], Empty)
  }

  /** The token after its `uhs` claim has been looked up with `operator[]`. */
  function Touched(t: Token): (r: Token)
    ensures r.token == t.token
    ensures ClaimOf(r, UserHashKey) == ClaimOf(t, UserHashKey)
    ensures UserHashKey in r.extra
    ensures r == t <==> UserHashKey in t.extra
  {
    Token(t.token, Subscript(t.extra, UserHashKey).0)
  }

  // ---------------------------------------------------------------- describe and the request

  const DescribePrefix := "Getting authorization to access "

  /** The step's progress text; names the authorization kind. */
  function Describe(kind: string): (r: string)
    ensures DescribePrefix <= r
    ensures OccursAt(r, kind, |DescribePrefix|)
    ensures r[|DescribePrefix| + |kind|..] == " services."
  {
    DescribePrefix + kind + " services."
  }

  const SandboxField := "\"SandboxId\": \"RETAIL\""
  const TokenTypeField := "\"TokenType\": \"JWT\""
  const RequestHead := "\n{\n    \"Properties\": {\n        " + SandboxField + ",\n        \"UserTokens\": [\n            \""
  const RequestMiddle := "\"\n        ]\n    },\n    \"RelyingParty\": \""
  const RequestTail := "\",\n    " + TokenTypeField + "\n}\n"

  /** The request body: the fixed template with the user token and the relying party substituted, unescaped. */
  function RequestBody(userToken: string, relyingParty: string): (r: string)
    ensures OccursAt(r, SandboxField, 31)
    ensures OccursAt(r, TokenTypeField, |r| - |TokenTypeField| - 3)
  {
    RequestHead + userToken + RequestMiddle + relyingParty + RequestTail
  }

  /** The index of the first double quote in `s`, if any. */
  function FirstQuote(s: string): (r: Option<nat>)
    ensures r.Some? ==> r.value < |s| && s[r.value] == '"'
    ensures r.Some? ==> forall j :: 0 <= j < r.value ==> s[j] != '"'
    ensures r.None? ==> forall j :: 0 <= j < |s| ==> s[j] != '"'
  {
    if |s| == 0 then None
    else if s[0] == '"' then Some(0)
    else
      var k := FirstQuote(s[1..]);
      if k.None? then None else Some(k.value + 1)
  }

  /**
    The two quoted fields of a body shaped `head + a + middle + b + tail`,
    where `middle` and `tail` open with the quote that closes `a` and `b`.
  */
  function QuotedFields(body: string, head: string, middle: string, tail: string): (r: Option<(string, string)>)
  {
    if !(head <= body) then None
    else
      var afterHead := body[|head|..];
      var q := FirstQuote(afterHead);
      if q.None? then None
      else
        var rest := afterHead[q.value..];
        if !(middle <= rest) then None
        else
          var afterMiddle := rest[|middle|..];
          var q2 := FirstQuote(afterMiddle);
          if q2.None? then None
          else if afterMiddle[q2.value..] != tail then None
          else Some((afterHead[..q.value], afterMiddle[..q2.value]))
  }

  /**
    How a reader of a request body recovers its two substituted fields: the
    quoted user token after the fixed head, and the quoted relying party
    after the fixed middle, with the fixed tail closing the body.
  */
  function BodyFields(body: string): Option<(string, string)> {
    QuotedFields(body, RequestHead, RequestMiddle, RequestTail)
  }

  lemma QuoteAfter(t: string, rest: string)
    requires '"' !in t && |rest| > 0 && rest[0] == '"'
    ensures FirstQuote(t + rest) == Some(|t|)
  {
    var s := t + rest;
    assert forall j :: 0 <= j < |t| ==> s[j] == t[j];
    assert s[|t|] == '"';
  }

  lemma {:induction false} QuotedFieldsRoundTrip(head: string, a: string, middle: string, b: string, tail: string)
    requires '"' !in a && '"' !in b
    requires |middle| > 0 && middle[0] == '"' && |tail| > 0 && tail[0] == '"'
    ensures QuotedFields(head + a + middle + b + tail, head, middle, tail) == Some((a, b))
  {
    var body := head + a + middle + b + tail;
    assert head <= body;
    var afterHead := body[|head|..];
    assert afterHead == a + (middle + b + tail);
    QuoteAfter(a, middle + b + tail);
    var rest := afterHead[|a|..];
    assert rest == middle + b + tail;
    var afterMiddle := rest[|middle|..];
    assert afterMiddle == b + tail;
    QuoteAfter(b, tail);
    assert afterHead[..|a|] == a;
    assert afterMiddle[..|b|] == b;
    assert afterMiddle[|b|..] == tail;
  }

  /**
    The body carries the stored user token and the relying party, and a
    reader gets both back, as long as neither contains a double quote (the
    template does no escaping).
  */
  lemma RequestBodyRoundTrip(userToken: string, relyingParty: string)
    requires '"' !in userToken && '"' !in relyingParty
    ensures BodyFields(RequestBody(userToken, relyingParty)) == Some((userToken, relyingParty))
  {
    assert RequestMiddle[0] == '"' && RequestTail[0] == '"';
    QuotedFieldsRoundTrip(RequestHead, userToken, RequestMiddle, relyingParty, RequestTail);
  }

  // ---------------------------------------------------------------- messages

  const TransportPrefix := "Failed to get authorization for "

  /** The message for a transport error other than authentication-required, as evidently intended. */
  function TransportFailureMessage(kind: string, error: NetworkError): (r: string)
    ensures OccursAt(r, kind, |TransportPrefix|)
  {
    TransportPrefix + kind + " services. Error " + DecimalString(error) + "."
  }

  /** Distinct transport errors give distinct messages, and the message names the kind. */
  lemma TransportFailureMessageNamesError(kind: string, e1: NetworkError, e2: NetworkError)
    requires TransportFailureMessage(kind, e1) == TransportFailureMessage(kind, e2)
    ensures e1 == e2
  {
    var head := TransportPrefix + kind + " services. Error ";
    var m1, m2 := TransportFailureMessage(kind, e1), TransportFailureMessage(kind, e2);
    assert |DecimalString(e1)| == |DecimalString(e2)|;
    assert m1[|head|..|m1| - 1] == DecimalString(e1);
    assert m2[|head|..|m2| - 1] == DecimalString(e2);
    DecimalInjective(e1, e2);
  }

  function Spaces(n: nat): (r: string)
    ensures |r| == n && forall i :: 0 <= i < n ==> r[i] == ' '
  {
    seq(n, _ => ' ')
  }

  /** `QString::arg(a, fieldWidth)` with a positive width: `a` right-aligned in at least `width` characters. */
  function PadLeft(a: string, width: int): (r: string)
    ensures |r| == if width > |a| then width else |a|
    ensures r[|r| - |a|..] == a
    ensures forall i :: 0 <= i < |r| - |a| ==> r[i] == ' '
  {
    if width > |a| then Spaces(width - |a|) + a else a
  }

  /**
    The transport-error message as the source writes it: the error is passed
    where `QString::arg` takes a field width, so the kind is padded to that
    width and the `%2` placeholder is left in the text.
  */
  function TransportFailureMessageAsWritten(kind: string, error: NetworkError): (r: string)
    ensures TransportPrefix <= r
    ensures |r| == |TransportPrefix| + (if error > |kind| then error else |kind|) + |" services. Error %2."|
    ensures forall i :: |TransportPrefix| <= i < |r| - |" services. Error %2."| - |kind| ==> r[i] == ' '
    ensures OccursAt(r, kind, |r| - |" services. Error %2."| - |kind|)
    ensures OccursAt(r, "%2", |r| - 3)
  {
    TransportPrefix + PadLeft(kind, error) + " services. Error %2."
  }

  /** As written, two different errors give the same message: the code cannot be read from it. */
  lemma TransportFailureMessageAsWrittenLosesError()
    ensures TransportFailureMessageAsWritten("Xbox Live", 1) == TransportFailureMessageAsWritten("Xbox Live", 2)
    ensures TransportFailureMessage("Xbox Live", 1) != TransportFailureMessage("Xbox Live", 2)
  {
    if TransportFailureMessage("Xbox Live", 1) == TransportFailureMessage("Xbox Live", 2) {
      TransportFailureMessageNamesError("Xbox Live", 1, 2);
    }
  }

  function ParseErrorMessage(kind: string, errorString: string): string {
    "Cannot parse " + kind + " authorization error response as JSON: " + errorString
  }

  function XErrMissingMessage(kind: string): string {
    "XErr element is missing from " + kind + " authorization error response."
  }

  function ResponseParseFailureMessage(kind: string): string {
    "Could not parse authorization response for access to " + kind + " services."
  }

  function UserHashChangedMessage(kind: string): string {
    "Server has changed " + kind + " authorization user hash in the reply. Something is wrong."
  }

  function AuthorizedMessage(relyingParty: string): string {
    "Got authorization to access " + relyingParty
  }

  const XErrBanned: int64 := 2148916227
  const XErrFamily: int64 := 2148916229
  const XErrNoProfile: int64 := 2148916233
  const XErrTermsNotAccepted: int64 := 2148916234
  const XErrCountryBlocked: int64 := 2148916235
  const XErrProofOfAge: int64 := 2148916236
  const XErrPlaytimeLimit: int64 := 2148916237
  const XErrUnderaged: int64 := 2148916238

  const KnownXErrCodes: set<int64> := {
    XErrBanned, XErrFamily, XErrNoProfile, XErrTermsNotAccepted,
    XErrCountryBlocked, XErrProofOfAge, XErrPlaytimeLimit, XErrUnderaged
  }

  // Each text below is written as its first word followed by the rest, so that
  // the verifier can see the opening characters that tell the texts apart from
  // the unrecognized-code message; the concatenation is the source's literal.
  const UnrecognizedPrefix := "XSTS" + " authentication ended with unrecognized error(s):\n\n"

  const BannedText := "Your" + " XBox Live account has been banned by Microsoft for violating the XBox Community Standards.\nThis may happen if your account was shared or resold."
  const FamilyText := "This" + " Microsoft account is linked to a family and your parent or guardian has not given you permission to play online."
  const NoProfileText := "This" + " Microsoft account does not have an XBox Live profile. " + "Buy the game" + " on <a href=\"https://www.minecraft.net/en-us/store/minecraft-java-edition\">minecraft.net</a> first."
  const TermsText := "This" + " account has not accepted the XBox Terms of Service. Please log in online and accept them."
  const CountryText := "XBox" + " Live is not available in your country. You've been blocked."
  const ProofOfAgeText := "This" + " Microsoft account requires proof of age to play. Please login to <a href=\"https://login.live.com/login.srf\">login.live.com</a> to provide proof of age."
  const PlaytimeText := "This" + " Microsoft account has reached its playtime limit and has been blocked from logging in."
  const UnderagedText := "This" + " Microsoft account is underaged and is not linked to a family.\n\nPlease set up your account according to <a href=\"https://help.minecraft.net/hc/en-us/articles/4408968616077\">help.minecraft.net</a>."

  /** No known code's text opens like the unrecognized-code message: they differ in their second character. */
  lemma KnownTextsLackUnrecognizedPrefix()
    ensures !(UnrecognizedPrefix <= BannedText) && !(UnrecognizedPrefix <= FamilyText)
    ensures !(UnrecognizedPrefix <= NoProfileText) && !(UnrecognizedPrefix <= TermsText)
    ensures !(UnrecognizedPrefix <= CountryText) && !(UnrecognizedPrefix <= ProofOfAgeText)
    ensures !(UnrecognizedPrefix <= PlaytimeText) && !(UnrecognizedPrefix <= UnderagedText)
  {
    assert UnrecognizedPrefix[1] == 'S';
    assert BannedText[1] == 'o' && CountryText[1] == 'B';
    assert FamilyText[1] == NoProfileText[1] == TermsText[1] == 'h';
    assert ProofOfAgeText[1] == PlaytimeText[1] == UnderagedText[1] == 'h';
  }

  /** The message for a numeric `XErr` code: a fixed text for each known code, the code in decimal otherwise. */
  function XErrMessage(code: int64): (r: string)
    ensures code !in KnownXErrCodes <==> UnrecognizedPrefix <= r
    ensures code !in KnownXErrCodes ==> r[|UnrecognizedPrefix|..] == DecimalString(code as int)
  {
    KnownTextsLackUnrecognizedPrefix();
    if code == XErrBanned then BannedText
    else if code == XErrFamily then FamilyText
    else if code == XErrNoProfile then NoProfileText
    else if code == XErrTermsNotAccepted then TermsText
    else if code == XErrCountryBlocked then CountryText
    else if code == XErrProofOfAge then ProofOfAgeText
    else if code == XErrPlaytimeLimit then PlaytimeText
    else if code == XErrUnderaged then UnderagedText
    else UnrecognizedPrefix + DecimalString(code as int)
  }

  /** Every code, known or not, has its own message. */
  lemma XErrMessageInjective(a: int64, b: int64)
    requires XErrMessage(a) == XErrMessage(b)
    ensures a == b
  {
    if a !in KnownXErrCodes && b !in KnownXErrCodes {
      assert DecimalString(a as int) == XErrMessage(a)[|UnrecognizedPrefix|..];
      DecimalInjective(a as int, b as int);
    } else if a in KnownXErrCodes && b in KnownXErrCodes {
      var lengths := map[
        XErrBanned := |BannedText|, XErrFamily := |FamilyText|, XErrNoProfile := |NoProfileText|,
        XErrTermsNotAccepted := |TermsText|, XErrCountryBlocked := |CountryText|,
        XErrProofOfAge := |ProofOfAgeText|, XErrPlaytimeLimit := |PlaytimeText|, XErrUnderaged := |UnderagedText|];
      assert forall c :: c in KnownXErrCodes ==> |XErrMessage(c)| == lengths[c];
      assert |XErrMessage(a)| == lengths[a] && |XErrMessage(b)| == lengths[b];
    }
  }

  /** An unrecognized code can be read back from its message. */
  lemma UnrecognizedMessageNamesCode(code: int64)
    requires code !in KnownXErrCodes
    ensures ParseDecimal(XErrMessage(code)[|UnrecognizedPrefix|..]) == Some(code as int)
  {
    DecimalRoundTrip(code as int);
  }

  /** The no-profile code tells the user to buy the game. */
  lemma NoProfileSaysBuyTheGame()
    ensures Contains(XErrMessage(XErrNoProfile), "Buy the game")
  {
    ContainsAt(NoProfileText, "Buy the game", 59);
  }

  // ---------------------------------------------------------------- classification

  /**
    What `processSTSError` does: `None` when it returns false and reports
    nothing (any error other than authentication-required); otherwise the one
    report it emits.
  */
  function ProcessStsError(error: NetworkError, body: ErrorBody, kind: string): (r: Option<Report>)
    ensures r.Some? <==> error == AuthenticationRequiredError
    ensures r.Some? ==> r.value.state == StateFailedSoft
    ensures r.Some? && body.NotJson? ==> r.value.message == ParseErrorMessage(kind, body.errorString)
    ensures r.Some? && body == Json(None) ==> r.value.message == XErrMissingMessage(kind)
    ensures r.Some? && body.Json? && body.xErr.Some? ==> r.value.message == XErrMessage(body.xErr.value)
  {
    if error != AuthenticationRequiredError then None
    else
      match body
      case NotJson(e) => Some(Report(StateFailedSoft, ParseErrorMessage(kind, e)))
      case Json(None) => Some(Report(StateFailedSoft, XErrMissingMessage(kind)))
      case Json(Some(code)) => Some(Report(StateFailedSoft, XErrMessage(code)))
  }

  /** Everything one reply does: the report, the user token afterwards, and what is written into the slot. */
  datatype Outcome = Outcome(report: Report, userToken: Token, written: Option<Token>)

  /** The hashes of a parsed reply token and of the user token agree, absent counting as `Empty`. */
  predicate HashesAgree(reply: Token, user: Token) {
    ClaimOf(reply, UserHashKey) == ClaimOf(user, UserHashKey)
  }

  /** The specification of `onRequestDone`. */
  function HandleReply(userToken: Token, reply: Reply, relyingParty: string, kind: string): (o: Outcome)
    ensures o.report.state != StateFailedHard
    ensures o.report.state == StateWorking <==> o.written.Some?
    ensures o.written.Some? <==>
      reply.error == NoError && reply.parsedToken.Some? && HashesAgree(reply.parsedToken.value, userToken)
    ensures o.written.Some? ==>
      o.written.value == Touched(reply.parsedToken.value) && o.report.message == AuthorizedMessage(relyingParty)
    ensures reply.error != NoError ==>
      o.report == ProcessStsError(reply.error, reply.errorBody, kind).GetOr(
        Report(StateFailedSoft, TransportFailureMessage(kind, reply.error)))
    ensures reply.error == NoError && reply.parsedToken.None? ==>
      o.report == Report(StateFailedSoft, ResponseParseFailureMessage(kind))
    ensures reply.error == NoError && reply.parsedToken.Some? && !HashesAgree(reply.parsedToken.value, userToken) ==>
      o.report == Report(StateFailedSoft, UserHashChangedMessage(kind))
    ensures o.userToken ==
      if reply.error == NoError && reply.parsedToken.Some? then Touched(userToken) else userToken
  {
    if reply.error != NoError then
      var handled := ProcessStsError(reply.error, reply.errorBody, kind);
      var report := if handled.Some? then handled.value
                    else Report(StateFailedSoft, TransportFailureMessage(kind, reply.error));
      Outcome(report, userToken, None)
    else if reply.parsedToken.None? then
      Outcome(Report(StateFailedSoft, ResponseParseFailureMessage(kind)), userToken, None)
    else
      var temp := reply.parsedToken.value;
      var (tempExtra, replyHash) := Subscript(temp.extra, UserHashKey);
      var (userExtra, userHash) := Subscript(userToken.extra, UserHashKey);
      var user' := Token(userToken.token, userExtra);
      if replyHash != userHash then
        Outcome(Report(StateFailedSoft, UserHashChangedMessage(kind)), user', None)
      else
        Outcome(Report(StateWorking, AuthorizedMessage(relyingParty)), user', Some(Token(temp.token, tempExtra)))
  }

  /**
    When neither the reply token nor the user token carries `uhs`, the check
    passes: both lookups insert an `Empty` claim, which compare equal, and
    the stored token and the user token both gain an `Empty` `uhs` claim.
  */
  lemma AbsentHashesPass(userToken: Token, reply: Reply, relyingParty: string, kind: string)
    requires reply.error == NoError && reply.parsedToken.Some?
    requires UserHashKey !in reply.parsedToken.value.extra && UserHashKey !in userToken.extra
    ensures var o := HandleReply(userToken, reply, relyingParty, kind);
      && o.report.state == StateWorking
      && o.written == Some(Token(reply.parsedToken.value.token, reply.parsedToken.value.extra[UserHashKey := Empty]))
      && o.userToken == Token(userToken.token, userToken.extra[UserHashKey := Empty])
  {
  }

  /**
    A transport error other than authentication-required fails softly, writes
    nothing, leaves the user token alone and names the authorization kind,
    whether the message is the corrected one or the one the source builds.
  */
  lemma TransportFailureReport(userToken: Token, reply: Reply, relyingParty: string, kind: string)
    requires reply.error != NoError && reply.error != AuthenticationRequiredError
    ensures var o := HandleReply(userToken, reply, relyingParty, kind);
      && o.report.state == StateFailedSoft
      && o.written.None?
      && o.userToken == userToken
      && Contains(o.report.message, kind)
      && Contains(TransportFailureMessageAsWritten(kind, reply.error), kind)
  {
    var m := TransportFailureMessage(kind, reply.error);
    ContainsAt(m, kind, |TransportPrefix|);
    var w := TransportFailureMessageAsWritten(kind, reply.error);
    ContainsAt(w, kind, |w| - |" services. Error %2."| - |kind|);
  }

  /**
    Handling the same reply again, against the user token the first handling
    left behind, reports the same thing and writes the same token: the `uhs`
    insertion happens at most once.
  */
  lemma HandleReplyStable(userToken: Token, reply: Reply, relyingParty: string, kind: string)
    ensures var o1 := HandleReply(userToken, reply, relyingParty, kind);
      var o2 := HandleReply(o1.userToken, reply, relyingParty, kind);
      o2 == o1
  {
    var o1 := HandleReply(userToken, reply, relyingParty, kind);
    if reply.error == NoError && reply.parsedToken.Some? {
      assert Touched(Touched(userToken)) == Touched(userToken);
    }
  }

  // ---------------------------------------------------------------- the step object

  /** The account record as far as this step reads or writes it. */
  class AccountData {
    var userToken: Token

    constructor (userToken: Token)
      ensures this.userToken == userToken
    {
      this.userToken := userToken;
    }
  }

  /** The relying-party token slot the step was given a pointer to. */
  class TokenSlot {
    var token: Token

    constructor (token: Token)
      ensures this.token == token
    {
      this.token := token;
    }
  }

  class XboxAuthorizationStep {
    const data: AccountData
    const slot: TokenSlot
    const relyingParty: string
    const authorizationKind: string

    constructor (data: AccountData, slot: TokenSlot, relyingParty: string, authorizationKind: string)
      ensures this.data == data && this.slot == slot
      ensures this.relyingParty == relyingParty && this.authorizationKind == authorizationKind
    {
      this.data := data;
      this.slot := slot;
      this.relyingParty := relyingParty;
      this.authorizationKind := authorizationKind;
    }

    /**
      Handles the reply: returns the one report emitted, changes the user
      token only by the `uhs` lookup and assigns the slot only on success.
    */
    method OnRequestDone(reply: Reply) returns (report: Report)
      modifies data, slot
      ensures var o := HandleReply(old(data.userToken), reply, relyingParty, authorizationKind);
        && report == o.report
        && data.userToken == o.userToken
        && slot.token == (if o.written.Some? then o.written.value else old(slot.token))
    {
      if reply.error != NoError {
        var handled := ProcessStsError(reply.error, reply.errorBody, authorizationKind);
        if handled.None? {
          report := Report(StateFailedSoft, TransportFailureMessage(authorizationKind, reply.error));
        } else {
          report := handled.value;
        }
        return;
      }
      if reply.parsedToken.None? {
        report := Report(StateFailedSoft, ResponseParseFailureMessage(authorizationKind));
        return;
      }
      var temp := reply.parsedToken.value;
      var (tempExtra, replyHash) := Subscript(temp.extra, UserHashKey);
      temp := temp.(extra := tempExtra);
      var (userExtra, userHash) := Subscript(data.userToken.extra, UserHashKey);
      data.userToken := data.userToken.(extra := userExtra);
      if replyHash != userHash {
        report := Report(StateFailedSoft, UserHashChangedMessage(authorizationKind));
        return;
      }
      slot.token := temp;
      report := Report(StateWorking, AuthorizedMessage(relyingParty));
    }
  }
}
