/**
 * The server action that sends a generated email through the Gmail API on behalf of the
 * signed-in user (lib/sendEmail.js): authentication, the OAuth token lookup, the plain-text
 * message, and its encoding into the `raw` field.
 */
module SendEmail {
  import opened Wrappers
  import opened Text
  import opened Seqs
  import Utf8
  import Base64

  const NOT_AUTHENTICATED := "User not authenticated"
  const NO_TOKENS := "\U{26A0}\U{FE0F} No Google OAuth tokens found. Ensure gmail.send scope is enabled in Clerk and user signed in with Google."
  const CONTENT_TYPE_LINE := "Content-Type: text/plain; charset=utf-8"
  const MIME_VERSION_LINE := "MIME-Version: 1.0"
  /** The Gmail API's alias for the authenticated user. */
  const ME := "me"

  /** One entry of the OAuth token list the identity provider returns for the user. */
  datatype OAuthToken = OAuthToken(token: string)

  /** The arguments of `gmail.users.messages.send`. */
  datatype SendRequest = SendRequest(accessToken: string, userId: string, raw: string)

  /** The header lines; the blank line and the body follow them. */
  function HeaderLines(to: string, subject: string): seq<string> {
    ["To: " + to, CONTENT_TYPE_LINE, MIME_VERSION_LINE, "Subject: " + subject, ""]
  }

  /** The six lines joined with line feeds. */
  function BuildMessage(to: string, subject: string, body: string): string {
    Join(HeaderLines(to, subject) + [body], "\n")
  }

  /** `!userId`: absent or the empty string. */
  predicate Unauthenticated(userId: Option<string>) {
    userId.None? || userId.value == ""
  }

  /** `!tokens?.data || tokens.data.length === 0` */
  predicate NoTokens(tokens: Option<seq<OAuthToken>>) {
    tokens.None? || |tokens.value| == 0
  }

  /**
   * Everything `sendEmail` does before the network call: the request it makes, or the error it throws.
   * The token list is only consulted for an authenticated user.
   */
  function PrepareSend(userId: Option<string>, tokens: Option<seq<OAuthToken>>,
                       to: string, subject: string, body: string): (r: Result<SendRequest, string>)
    ensures Unauthenticated(userId) ==> r == Failure(NOT_AUTHENTICATED)
    ensures !Unauthenticated(userId) && NoTokens(tokens) ==> r == Failure(NO_TOKENS)
    ensures r.Success? <==> !Unauthenticated(userId) && !NoTokens(tokens)
    ensures r.Success? ==> r.value.accessToken == tokens.value[0].token && r.value.userId == ME
    ensures r.Success? ==> r.value.raw == Base64.EncodeRaw(Utf8.Encode(BuildMessage(to, subject, body)))
    ensures r.Success? ==>
      Base64.Decode(Base64.Repad(r.value.raw)) == Some(Utf8.Encode(BuildMessage(to, subject, body)))
    ensures r.Success? ==>
      forall i :: 0 <= i < |r.value.raw| ==> Base64.IsUrlChar(r.value.raw[i])
  {
    if Unauthenticated(userId) then Failure(NOT_AUTHENTICATED)
    else if NoTokens(tokens) then Failure(NO_TOKENS)
    else
      var bytes := Utf8.Encode(BuildMessage(to, subject, body));
      Base64.RoundTrip(bytes);
      Base64.EncodeRawAlphabet(bytes);
      Success(SendRequest(tokens.value[0].token, ME, Base64.EncodeRaw(bytes)))
  }

  /**
   * A reader that splits the message at line feeds finds the four header lines and the blank
   * line first, and the body, re-joined, after them, provided the recipient and the subject hold
   * no line feed.
   */
  lemma MessageLines(to: string, subject: string, body: string)
    requires '\n' !in to && '\n' !in subject
    ensures var lines := SplitOn(BuildMessage(to, subject, body), '\n');
            |lines| >= 6 && lines[..5] == HeaderLines(to, subject) && Join(lines[5..], "\n") == body
  {
    var h := HeaderLines(to, subject);
    HeadersOneLineEach(to, subject);
    SplitJoinLast(h, body, '\n');
    JoinSplit(body, '\n');
    ConcatParts(h, SplitOn(body, '\n'));
  }

  lemma HeadersOneLineEach(to: string, subject: string)
    requires '\n' !in to && '\n' !in subject
    ensures forall i :: 0 <= i < |HeaderLines(to, subject)| ==> '\n' !in HeaderLines(to, subject)[i]
  {
    assert '\n' !in "To: " + to;
    assert '\n' !in "Subject: " + subject;
  }
}
