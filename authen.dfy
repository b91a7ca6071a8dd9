/** Bearer-token extraction and the first gate of the `Authenticate`
    middleware. A missing Authorization header reads as the empty string, as
    net/http's Header.Get returns it. */
module Authen {
  import opened GoStrings

  /** The scheme prefix, case-sensitive, with exactly one space. */
  const BearerSchema: string := "Bearer "

  /** extractToken: the header with one leading "Bearer " removed, or the
      header unchanged when it does not start with that prefix. */
  function ExtractToken(header: string): (token: string)
    ensures HasSuffix(header, token)
    ensures |token| < |header| <==> HasPrefix(header, BearerSchema)
    ensures HasPrefix(header, BearerSchema) ==> BearerSchema + token == header
  {
    if header == "" then ""
    else if HasPrefix(header, BearerSchema) then TrimPrefix(header, BearerSchema)
    else header
  }

  /** Putting the prefix back in front of any token and extracting again
      yields that token: extraction inverts the scheme prefix. */
  lemma ExtractBearer(token: string)
    ensures ExtractToken(BearerSchema + token) == token
  {
    assert (BearerSchema + token)[..|BearerSchema|] == BearerSchema;
  }

  /** A header without the exact prefix is taken as the raw token. */
  lemma ExtractRaw(header: string)
    requires !HasPrefix(header, BearerSchema)
    ensures ExtractToken(header) == header
  {
  }

  /** The prefix is removed once only. */
  lemma ExtractOnce()
    ensures ExtractToken("Bearer Bearer x") == "Bearer x"
  {
    assert "Bearer Bearer x" == BearerSchema + "Bearer x";
    ExtractBearer("Bearer x");
  }

  /** The prefix test is case-sensitive. */
  lemma LowerCaseSchemeKept()
    ensures ExtractToken("bearer x") == "bearer x"
  {
    assert !HasPrefix("bearer x", BearerSchema) by {
      assert "bearer x"[0] != BearerSchema[0];
    }
  }

  /** The token is empty exactly for an empty header and for the bare prefix. */
  lemma EmptyTokenIff(header: string)
    ensures ExtractToken(header) == "" <==> header == "" || header == BearerSchema
  {
    if header == BearerSchema {
      assert HasPrefix(header, BearerSchema);
    }
  }

  /** What the middleware does with a request. The JWT check that follows the
      empty-token test is a parameter: `tokenIsValid` stands for parsing the
      token and checking its HMAC signature. */
  datatype AuthOutcome =
    | NoToken            // 401 "Unauthorized: No token provided"
    | InvalidToken       // 401 "Unauthorized: Invalid token"
    | Forward(token: string)  // the next handler is called

  /** Authenticate, for one request. */
  function Authenticate(header: string, tokenIsValid: string -> bool): (o: AuthOutcome)
    ensures o == NoToken <==> ExtractToken(header) == ""
    ensures o.Forward? ==> o.token == ExtractToken(header) && o.token != "" && tokenIsValid(o.token)
    ensures o == InvalidToken ==> !tokenIsValid(ExtractToken(header))
  {
    var token := ExtractToken(header);
    if token == "" then NoToken
    else if !tokenIsValid(token) then InvalidToken
    else Forward(token)
  }

  /** The next handler never runs without a token: neither for a missing
      header nor for a header that is exactly "Bearer ". */
  lemma NoHeaderNoForward(tokenIsValid: string -> bool)
    ensures Authenticate("", tokenIsValid) == NoToken
    ensures Authenticate(BearerSchema, tokenIsValid) == NoToken
  {
    EmptyTokenIff("");
    EmptyTokenIff(BearerSchema);
  }
}
