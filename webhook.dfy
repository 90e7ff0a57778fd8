/**
 * The verification handshake of `GET /webhook` (main.py, lines 32-41): the provider sends
 * `hub.mode`, `hub.challenge` and `hub.verify_token`; the endpoint echoes the challenge as an
 * integer when the token is the configured one, and answers 403 "Forbidden" otherwise.
 */
module Webhook {
  import opened Wrappers
  import PyInt

  /** What the endpoint answers: the challenge as a JSON integer, a plain refusal with a
      status code, or an exception escaping the handler (`int()` is outside any `try`),
      which the web framework turns into a server error. */
  datatype Response = Echo(challenge: int) | Denied(status: int, content: string) | ServerError

  const Forbidden: Response := Denied(403, "Forbidden")

  /** A missing query parameter, like an unset environment variable, is Python's `None`;
      two `None`s compare equal. */
  function VerifyWebhook(mode: Option<string>, challenge: Option<string>,
                         verifyToken: Option<string>, configured: Option<string>): (r: Response)
    ensures r == Forbidden <==> verifyToken != configured
    ensures r.Echo? <==> verifyToken == configured && challenge.Some?
                         && PyInt.ParseInt(challenge.value).Some?
    ensures r.Echo? ==> PyInt.ParseInt(challenge.value) == Some(r.challenge)
    ensures r.ServerError? <==> verifyToken == configured
                                && (challenge.None? || PyInt.ParseInt(challenge.value).None?)
  {
    if verifyToken == configured then
      match challenge
      case None => ServerError
      case Some(c) =>
        match PyInt.ParseInt(c)
        case Some(n) => Echo(n)
        case None => ServerError
    else
      Forbidden
  }

  /** `hub.mode` is read but never consulted. */
  lemma ModeIgnored(m1: Option<string>, m2: Option<string>, challenge: Option<string>,
                    verifyToken: Option<string>, configured: Option<string>)
    ensures VerifyWebhook(m1, challenge, verifyToken, configured)
         == VerifyWebhook(m2, challenge, verifyToken, configured)
  {
  }

  /** With the right token, any integer the provider sends as its decimal text comes back. */
  lemma EchoesChallenge(mode: Option<string>, n: int, token: Option<string>)
    ensures VerifyWebhook(mode, Some(PyInt.DecimalString(n)), token, token) == Echo(n)
  {
    PyInt.ParseDecimal(n);
  }

  /** An example challenge, "1234", first with the right token and then with a wrong one. */
  lemma HandshakeExample(secret: string, wrong: string)
    requires wrong != secret
    ensures VerifyWebhook(Some("subscribe"), Some("1234"), Some(secret), Some(secret)) == Echo(1234)
    ensures VerifyWebhook(Some("subscribe"), Some("1234"), Some(wrong), Some(secret)) == Forbidden
  {
    PyInt.ParseChallengeExample();
  }

  /** With no token configured (the environment variable unset), a request that sends no
      `hub.verify_token` at all is accepted, since `None == None`. */
  lemma UnsetTokenAcceptsMissingToken(mode: Option<string>, n: int)
    ensures VerifyWebhook(mode, Some(PyInt.DecimalString(n)), None, None) == Echo(n)
  {
    EchoesChallenge(mode, n, None);
  }

  /** A challenge led by the ASCII separator U+001C passes the token test and then makes
      `int()` raise, which escapes the handler. */
  lemma SeparatorChallengeFails(token: Option<string>)
    ensures VerifyWebhook(None, Some("\U{1C}1234"), token, token) == ServerError
  {
    PyInt.SeparatorNotSkipped();
  }
}
