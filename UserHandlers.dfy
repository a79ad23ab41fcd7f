/**
 * Account provisioning, login and logout over the `users` collection, and
 * the minting of the session token handed out at login.
 */
module UserHandlers {
  import opened Wrappers
  import opened Bytes
  import Base64
  import opened Models
  import opened Errors
  import opened Http

  // ---------------------------------------------------------------------
  // The `users` collection

  /** A stored document of the `users` collection: one `DataTo` turns into a User, or one it rejects. */
  datatype UserDoc = Decodable(user: User) | Malformed(reason: string)

  /** Every decodable account is stored under its own email. */
  ghost predicate KeyedByEmail(docs: map<string, UserDoc>)
  {
    forall email | email in docs && docs[email].Decodable? :: docs[email].user.email == email
  }

  /**
   * The store's create-if-absent write of `users/key`: the transport fault
   * if there is one, AlreadyExists for a key already taken, success otherwise.
   */
  function CreateStatus(docs: map<string, UserDoc>, key: string, fault: Option<RpcError>): Option<RpcError>
  {
    if fault.Some? then fault
    else if key in docs then Some(RpcError(AlreadyExists, "document already exists"))
    else None
  }

  /** The store's point read of `users/key`. */
  function GetStatus(docs: map<string, UserDoc>, key: string, fault: Option<RpcError>): Result<UserDoc, RpcError>
  {
    if fault.Some? then Err(fault.value)
    else if key !in docs then Err(RpcError(NotFound, "document not found"))
    else Ok(docs[key])
  }

  class UserCollection {
    var docs: map<string, UserDoc>

    ghost predicate Valid()
      reads this
    {
      KeyedByEmail(docs)
    }

    constructor (docs: map<string, UserDoc>)
      requires KeyedByEmail(docs)
      ensures Valid() && this.docs == docs
    {
      this.docs := docs;
    }

    /** `Collection("users").Doc(user.Email).Create(user)`: insert if absent, never overwrite. */
    method Create(user: User, fault: Option<RpcError>) returns (err: Option<RpcError>)
      requires Valid()
      modifies this
      ensures Valid()
      ensures err == CreateStatus(old(docs), user.email, fault)
      ensures docs == if err.None? then old(docs)[user.email := Decodable(user)] else old(docs)
    {
      err := CreateStatus(docs, user.email, fault);
      if err.None? {
        docs := docs[user.email := Decodable(user)];
      }
    }
  }

  // ---------------------------------------------------------------------
  // createUserInDB and fetchUserByEmail

  /** The error a write reports and the collection after it. */
  datatype Written = Written(err: Option<Error>, docs: map<string, UserDoc>)

  /**
   * `createUserInDB`: the account is added exactly when its email is free and
   * the store works; a taken email is `UserExists`, and so is any store error
   * carrying the AlreadyExists code; every other store error is passed on
   * unchanged; nothing already stored is ever changed.
   */
  function CreateUser(docs: map<string, UserDoc>, user: User, fault: Option<RpcError>): (w: Written)
    ensures forall k | k in docs :: k in w.docs && w.docs[k] == docs[k]
    ensures w.docs.Keys <= docs.Keys + {user.email}
    ensures w.err.None? <==> fault.None? && user.email !in docs
    ensures w.err.None? ==> user.email in w.docs && w.docs[user.email] == Decodable(user)
    ensures w.err.Some? ==> w.docs == docs
    ensures w.err == Some(UserExists) <==>
              (fault.None? && user.email in docs) || (fault.Some? && fault.value.code == AlreadyExists)
    ensures w.err.Some? && w.err != Some(UserExists) ==> fault.Some? && w.err == Some(Rpc(fault.value))
  {
    match CreateStatus(docs, user.email, fault)
    case None => Written(None, docs[user.email := Decodable(user)])
    case Some(e) => Written(Some(if e.code == AlreadyExists then UserExists else Rpc(e)), docs)
  }

  /** Writing an account keeps every decodable account under its own email. */
  lemma CreateUserKeepsKeyedByEmail(docs: map<string, UserDoc>, user: User, fault: Option<RpcError>)
    requires KeyedByEmail(docs)
    ensures KeyedByEmail(CreateUser(docs, user, fault).docs)
  {
  }

  method CreateUserInDB(users: UserCollection, user: User, fault: Option<RpcError>) returns (err: Option<Error>)
    requires users.Valid()
    modifies users
    ensures users.Valid()
    ensures Written(err, users.docs) == CreateUser(old(users.docs), user, fault)
  {
    var e := users.Create(user, fault);
    if e.Some? {
      if e.value.code == AlreadyExists {
        return Some(UserExists);
      }
      return Some(Rpc(e.value));
    }
    return None;
  }

  /**
   * `fetchUserByEmail`: a point read keyed by the email. It yields the stored
   * account exactly when the read works and the document decodes; a missing
   * document, or a store error with the NotFound code, is `UserNotFound`;
   * every other read error and every decode error is passed on unchanged.
   */
  function FetchUserByEmail(docs: map<string, UserDoc>, email: string, fault: Option<RpcError>): (r: Result<User, Error>)
    ensures r.Ok? <==> fault.None? && email in docs && docs[email].Decodable?
    ensures r.Ok? ==> r.value == docs[email].user
    ensures r == Err(UserNotFound) <==> (fault.None? && email !in docs) || (fault.Some? && fault.value.code == NotFound)
    ensures r.Err? && r.error != UserNotFound ==>
              (fault.Some? && r.error == Rpc(fault.value))
              || (fault.None? && email in docs && docs[email].Malformed? && r.error == Failure(docs[email].reason))
  {
    match GetStatus(docs, email, fault)
    case Err(e) => if e.code == NotFound then Err(UserNotFound) else Err(Rpc(e))
    case Ok(doc) =>
      match doc
      case Malformed(reason) => Err(Failure(reason))
      case Decodable(u) => Ok(u)
  }

  /**
   * In a collection that keeps every account under its own email, a
   * successful read by email yields that email's account, so login checks
   * the password of the account it was asked about.
   */
  lemma FetchedAccountHasEmail(docs: map<string, UserDoc>, email: string, fault: Option<RpcError>)
    requires KeyedByEmail(docs)
    ensures FetchUserByEmail(docs, email, fault).Ok? ==> FetchUserByEmail(docs, email, fault).value.email == email
  {
  }

  // ---------------------------------------------------------------------
  // signJWT

  /** What `rand.Read` does with the 32-byte buffer: fills it, or fails. */
  datatype RandRead = Filled(nonce: Block32) | ReadFailed(err: Error)

  /**
   * What token minting depends on: the `JWT_SECRET` environment value (empty
   * when unset), the random source, and HMAC-SHA256 (RFC 2104 over FIPS
   * 180-4), which gives a 32-byte tag of a key and a message.
   */
  datatype Minter = Minter(jwtSecret: string, rand: RandRead, hmac: (seq<byte>, seq<byte>) -> Block32)

  /** The keyed hash state made by `hmac.New(sha256.New, key)`. */
  class Mac {
    const hmac: (seq<byte>, seq<byte>) -> Block32
    const key: seq<byte>
    var written: seq<byte>

    constructor (hmac: (seq<byte>, seq<byte>) -> Block32, key: seq<byte>)
      ensures this.hmac == hmac && this.key == key && written == []
    {
      this.hmac := hmac;
      this.key := key;
      written := [];
    }

    method Write(p: seq<byte>)
      modifies this
      ensures written == old(written) + p
    {
      written := written + p;
    }

    /** The tag of everything written so far. */
    function Sum(): Block32
      reads this
    {
      hmac(key, written)
    }
  }

  /** `rand.Read(b)`. */
  method ReadRandom(b: array<byte>, source: RandRead) returns (err: Option<Error>)
    requires b.Length == 32
    modifies b
    ensures source.Filled? ==> err.None? && b[..] == source.nonce
    ensures source.ReadFailed? ==> err == Some(source.err)
  {
    match source
    case ReadFailed(e) =>
      return Some(e);
    case Filled(nonce) =>
      forall i | 0 <= i < 32 {
        b[i] := nonce[i];
      }
      return None;
  }

  /** The token `signJWT` returns: Base64 of the nonce followed by the HMAC of the email and the nonce. */
  function SignedToken(email: string, m: Minter): (r: Result<string, Error>)
    ensures r.Ok? <==> m.rand.Filled?
    ensures r.Err? ==> r.error == m.rand.err
    ensures r.Ok? ==> |r.value| == 88
  {
    match m.rand
    case ReadFailed(e) => Err(e)
    case Filled(nonce) =>
      var secret := if m.jwtSecret == "" then "dev_secret" else m.jwtSecret;
      var tag := m.hmac(Utf8(secret), Utf8(email) + nonce);
      EncodedBlocks(nonce, tag);
      Ok(Base64.Encode(nonce + tag))
  }

  method SignJWT(email: string, m: Minter) returns (r: Result<string, Error>)
    ensures r == SignedToken(email, m)
  {
    var secret := m.jwtSecret;
    if secret == "" {
      secret := "dev_secret";
    }
    var b := new byte[32];
    var err := ReadRandom(b, m.rand);
    if err.Some? {
      return Err(err.value);
    }
    var mac := new Mac(m.hmac, Utf8(secret));
    mac.Write(Utf8(email));
    mac.Write(b[..]);
    var sum := mac.Sum();
    assert mac.written == Utf8(email) + m.rand.nonce;
    var token := b[..] + sum;
    return Ok(Base64.Encode(token));
  }

  /**
   * A minted token is 88 characters and decodes to 64 bytes: the 32-byte
   * nonce, then the HMAC, keyed by `JWT_SECRET` or "dev_secret" when that is
   * empty, of the email's bytes followed by the nonce. A failing random
   * source is reported and yields no token.
   */
  lemma TokenLayout(email: string, m: Minter)
    ensures m.rand.ReadFailed? ==> SignedToken(email, m) == Err(m.rand.err)
    ensures m.rand.Filled? ==>
      var token := SignedToken(email, m);
      var key := Utf8(if m.jwtSecret == "" then "dev_secret" else m.jwtSecret);
      && token.Ok?
      && |token.value| == 88
      && Base64.Decode(token.value).Some?
      && |Base64.Decode(token.value).value| == 64
      && Base64.Decode(token.value).value[..32] == m.rand.nonce
      && Base64.Decode(token.value).value[32..] == m.hmac(key, Utf8(email) + m.rand.nonce)
  {
    if m.rand.Filled? {
      var key := Utf8(if m.jwtSecret == "" then "dev_secret" else m.jwtSecret);
      var tag := m.hmac(key, Utf8(email) + m.rand.nonce);
      EncodedBlocks(m.rand.nonce, tag);
    }
  }

  /** The encoding of a nonce followed by a tag: its length, and what decoding it gives back. */
  lemma EncodedBlocks(nonce: Block32, tag: Block32)
    ensures |Base64.Encode(nonce + tag)| == 88
    ensures Base64.Decode(Base64.Encode(nonce + tag)) == Some(nonce + tag)
    ensures |nonce + tag| == 64 && (nonce + tag)[..32] == nonce && (nonce + tag)[32..] == tag
  {
    Base64.EncodeLength(nonce + tag);
    Base64.DecodeEncode(nonce + tag);
  }

  /** Tokens minted from different nonces differ, whatever the emails and secrets. */
  lemma FreshNonceFreshToken(email1: string, m1: Minter, email2: string, m2: Minter)
    requires m1.rand.Filled? && m2.rand.Filled?
    requires m1.rand.nonce != m2.rand.nonce
    ensures SignedToken(email1, m1) != SignedToken(email2, m2)
  {
    var secret1 := if m1.jwtSecret == "" then "dev_secret" else m1.jwtSecret;
    var secret2 := if m2.jwtSecret == "" then "dev_secret" else m2.jwtSecret;
    var raw1 := m1.rand.nonce + m1.hmac(Utf8(secret1), Utf8(email1) + m1.rand.nonce);
    var raw2 := m2.rand.nonce + m2.hmac(Utf8(secret2), Utf8(email2) + m2.rand.nonce);
    assert raw1[..32] == m1.rand.nonce && raw2[..32] == m2.rand.nonce;
    if Base64.Encode(raw1) == Base64.Encode(raw2) {
      Base64.EncodeInjective(raw1, raw2);
    }
  }

  // ---------------------------------------------------------------------
  // The handlers

  /** The JSON request body: parsed credentials, or a body `BindJSON` rejects. */
  datatype Request = Credentials(email: string, password: string) | Unparseable

  /** bcrypt: hashing a password (which may fail) and checking a password against a hash. */
  datatype Bcrypt = Bcrypt(hash: string -> Result<string, Error>, verify: (string, string) -> bool)

  /** A request both handlers accept: it parsed, and neither field is empty. */
  predicate Validated(req: Request)
  {
    req.Credentials? && req.email != "" && req.password != ""
  }

  /** The response and the collection after `CreateAccountHandler`. */
  datatype Provisioned = Provisioned(response: Response, docs: map<string, UserDoc>)

  /** `CreateAccountHandler`: validate, hash, write. */
  function CreateAccount(req: Request, bcrypt: Bcrypt, docs: map<string, UserDoc>, fault: Option<RpcError>): (p: Provisioned)
    ensures p.response.status in {StatusCreated, StatusBadRequest, StatusConflict, StatusInternalServerError}
    ensures p.response.status == StatusBadRequest <==> !Validated(req)
    ensures p.response.status == StatusCreated <==> p.response.body == NoBody
    ensures p.response.status != StatusCreated ==> p.docs == docs
    ensures p.response.status == StatusCreated ==> p.docs.Keys == docs.Keys + {req.email} && req.email !in docs
  {
    match req
    case Unparseable =>
      Provisioned(Response(StatusBadRequest, ErrorJson("invalid request")), docs)
    case Credentials(email, password) =>
      if email == "" || password == "" then
        Provisioned(Response(StatusBadRequest, ErrorJson("missing email or password")), docs)
      else
        match bcrypt.hash(password)
        case Err(e) =>
          Provisioned(Response(StatusInternalServerError, ErrorJson(Message(e))), docs)
        case Ok(hashed) =>
          var w := CreateUser(docs, User(email, hashed), fault);
          if w.err == Some(UserExists) then
            Provisioned(Response(StatusConflict, ErrorJson("user already exists")), w.docs)
          else if w.err.Some? then
            Provisioned(Response(StatusInternalServerError, ErrorJson(Message(w.err.value))), w.docs)
          else
            Provisioned(Response(StatusCreated, NoBody), w.docs)
  }

  method CreateAccountHandler(users: UserCollection, req: Request, bcrypt: Bcrypt, fault: Option<RpcError>)
    returns (resp: Response)
    requires users.Valid()
    modifies users
    ensures users.Valid()
    ensures Provisioned(resp, users.docs) == CreateAccount(req, bcrypt, old(users.docs), fault)
    ensures !Validated(req) ==> unchanged(users)
  {
    if req.Unparseable? {
      return Response(StatusBadRequest, ErrorJson("invalid request"));
    }
    if req.email == "" || req.password == "" {
      return Response(StatusBadRequest, ErrorJson("missing email or password"));
    }
    var hashed := bcrypt.hash(req.password);
    if hashed.Err? {
      return Response(StatusInternalServerError, ErrorJson(Message(hashed.error)));
    }
    var err := CreateUserInDB(users, User(req.email, hashed.value), fault);
    if err.Some? {
      if err.value == UserExists {
        return Response(StatusConflict, ErrorJson("user already exists"));
      }
      return Response(StatusInternalServerError, ErrorJson(Message(err.value)));
    }
    return Response(StatusCreated, NoBody);
  }

  /** `LoginHandler`: validate, read the account, check the password, mint a token. */
  function LoginHandler(req: Request, docs: map<string, UserDoc>, fault: Option<RpcError>, bcrypt: Bcrypt, m: Minter): (resp: Response)
    ensures resp.status in {StatusOK, StatusBadRequest, StatusUnauthorized, StatusInternalServerError}
    ensures resp.status == StatusBadRequest <==> !Validated(req)
    ensures resp.status == StatusOK ==>
      && Validated(req)
      && req.email in docs && docs[req.email].Decodable?
      && bcrypt.verify(docs[req.email].user.passwordHash, req.password)
  {
    match req
    case Unparseable =>
      Response(StatusBadRequest, ErrorJson("invalid request"))
    case Credentials(email, password) =>
      if email == "" || password == "" then
        Response(StatusBadRequest, ErrorJson("missing email or password"))
      else
        match FetchUserByEmail(docs, email, fault)
        case Err(e) =>
          if e == UserNotFound then Response(StatusUnauthorized, ErrorJson("invalid credentials"))
          else Response(StatusInternalServerError, ErrorJson(Message(e)))
        case Ok(u) =>
          if !bcrypt.verify(u.passwordHash, password) then
            Response(StatusUnauthorized, ErrorJson("invalid credentials"))
          else
            match SignedToken(email, m)
            case Err(e) => Response(StatusInternalServerError, ErrorJson(Message(e)))
            case Ok(token) => Response(StatusOK, TokenJson(token))
  }

  /** `LogoutHandler`: the tokens are stateless, so there is nothing to revoke; it always succeeds. */
  function LogoutHandler(): (resp: Response)
    ensures resp.status == StatusOK && resp.body == NoBody
  {
    Response(StatusOK, NoBody)
  }

  // ---------------------------------------------------------------------
  // Properties of account creation

  /**
   * A request that does not parse or lacks a field gets 400 before any
   * hashing or store access: the response does not depend on bcrypt, the
   * collection or the store, and the collection is left as it was.
   */
  lemma CreateAccountValidatesFirst(req: Request, bcrypt1: Bcrypt, docs1: map<string, UserDoc>, fault1: Option<RpcError>,
                                    bcrypt2: Bcrypt, docs2: map<string, UserDoc>, fault2: Option<RpcError>)
    requires !Validated(req)
    ensures CreateAccount(req, bcrypt1, docs1, fault1).response == CreateAccount(req, bcrypt2, docs2, fault2).response
    ensures CreateAccount(req, bcrypt1, docs1, fault1).response.status == StatusBadRequest
    ensures CreateAccount(req, bcrypt1, docs1, fault1).docs == docs1
  {
  }

  /**
   * For a valid request: 201 exactly when hashing works, the store works and
   * the email is free; 409 exactly when the write reports the email taken;
   * 500 for a hashing failure or any other store error. Only a 201 changes
   * the collection, and then by adding this one account.
   */
  lemma CreateAccountOutcomes(req: Request, bcrypt: Bcrypt, docs: map<string, UserDoc>, fault: Option<RpcError>)
    requires Validated(req)
    ensures var p, h := CreateAccount(req, bcrypt, docs, fault), bcrypt.hash(req.password);
      && (p.response.status == StatusCreated <==> h.Ok? && fault.None? && req.email !in docs)
      && (p.response.status == StatusConflict <==>
            h.Ok? && ((fault.None? && req.email in docs) || (fault.Some? && fault.value.code == AlreadyExists)))
      && (p.response.status == StatusInternalServerError <==>
            h.Err? || (fault.Some? && fault.value.code != AlreadyExists))
      && (p.response.status == StatusCreated ==> p.docs == docs[req.email := Decodable(User(req.email, h.value))])
      && (p.response.status != StatusCreated ==> p.docs == docs)
  {
  }

  /** Account creation keeps every decodable account under its own email. */
  lemma CreateAccountKeepsKeyedByEmail(req: Request, bcrypt: Bcrypt, docs: map<string, UserDoc>, fault: Option<RpcError>)
    requires KeyedByEmail(docs)
    ensures KeyedByEmail(CreateAccount(req, bcrypt, docs, fault).docs)
  {
  }

  /**
   * Provisioning the same email twice gives 201 and then 409, whatever the
   * second password; the second attempt leaves the first account in place.
   */
  lemma ProvisionTwice(email: string, password1: string, password2: string, bcrypt: Bcrypt, docs: map<string, UserDoc>)
    requires email != "" && password1 != "" && password2 != ""
    requires bcrypt.hash(password1).Ok? && bcrypt.hash(password2).Ok?
    requires email !in docs
    ensures var first := CreateAccount(Credentials(email, password1), bcrypt, docs, None);
            var second := CreateAccount(Credentials(email, password2), bcrypt, first.docs, None);
      && first.response.status == StatusCreated
      && second.response.status == StatusConflict
      && second.docs == first.docs
      && first.docs[email] == Decodable(User(email, bcrypt.hash(password1).value))
  {
  }

  // ---------------------------------------------------------------------
  // Properties of login

  /** A request that does not parse or lacks a field gets 400 whatever the store, bcrypt and token minting would do. */
  lemma LoginValidatesFirst(req: Request, docs1: map<string, UserDoc>, fault1: Option<RpcError>, bcrypt1: Bcrypt, m1: Minter,
                            docs2: map<string, UserDoc>, fault2: Option<RpcError>, bcrypt2: Bcrypt, m2: Minter)
    requires !Validated(req)
    ensures LoginHandler(req, docs1, fault1, bcrypt1, m1) == LoginHandler(req, docs2, fault2, bcrypt2, m2)
    ensures LoginHandler(req, docs1, fault1, bcrypt1, m1).status == StatusBadRequest
  {
  }

  /**
   * For a valid request, 401 comes exactly from an unknown account or a
   * password that does not verify, and always with the same body, so the
   * response does not reveal which of the two it was.
   */
  lemma InvalidCredentialsIndistinguishable(req: Request, docs: map<string, UserDoc>, fault: Option<RpcError>, bcrypt: Bcrypt, m: Minter)
    requires Validated(req)
    ensures var resp, f := LoginHandler(req, docs, fault, bcrypt, m), FetchUserByEmail(docs, req.email, fault);
      && (resp.status == StatusUnauthorized <==>
            f == Err(UserNotFound) || (f.Ok? && !bcrypt.verify(f.value.passwordHash, req.password)))
      && (resp.status == StatusUnauthorized ==> resp == Response(StatusUnauthorized, ErrorJson("invalid credentials")))
  {
  }

  /** An unregistered email and a registered one with a wrong password get identical responses. */
  lemma UnknownEmailLooksLikeWrongPassword(email: string, password: string, bcrypt: Bcrypt, m: Minter,
                                           docs1: map<string, UserDoc>, docs2: map<string, UserDoc>)
    requires email != "" && password != ""
    requires email !in docs1
    requires email in docs2 && docs2[email].Decodable? && !bcrypt.verify(docs2[email].user.passwordHash, password)
    ensures LoginHandler(Credentials(email, password), docs1, None, bcrypt, m)
            == LoginHandler(Credentials(email, password), docs2, None, bcrypt, m)
  {
  }

  /**
   * A token is handed out, with 200, exactly when the account is read, the
   * password verifies and minting succeeds, and it is the token minted for
   * that email. A minting failure after a good password is 500 with no
   * token; so is a read error other than a missing account.
   */
  lemma TokenOnlyAfterVerify(req: Request, docs: map<string, UserDoc>, fault: Option<RpcError>, bcrypt: Bcrypt, m: Minter)
    ensures var resp := LoginHandler(req, docs, fault, bcrypt, m);
      && (resp.body.TokenJson? <==> resp.status == StatusOK)
      && (resp.status == StatusOK <==>
            Validated(req) && FetchUserByEmail(docs, req.email, fault).Ok?
            && bcrypt.verify(FetchUserByEmail(docs, req.email, fault).value.passwordHash, req.password)
            && m.rand.Filled?)
      && (resp.status == StatusOK ==> resp.body == TokenJson(SignedToken(req.email, m).value))
      && (resp.status == StatusInternalServerError <==>
            Validated(req) &&
            ((FetchUserByEmail(docs, req.email, fault).Err? && FetchUserByEmail(docs, req.email, fault) != Err(UserNotFound))
             || (FetchUserByEmail(docs, req.email, fault).Ok?
                 && bcrypt.verify(FetchUserByEmail(docs, req.email, fault).value.passwordHash, req.password)
                 && m.rand.ReadFailed?)))
  {
  }

  /**
   * Sign-up then log-in: provisioning "a@x.com" with "pw1" gives 201, doing
   * it again gives 409, logging in with "pw1" gives 200 with a token, and
   * logging in with "wrong" gives 401, for any bcrypt that verifies the hash
   * it made of "pw1" and rejects "wrong" against it.
   */
  lemma SignupLoginScenario(docs: map<string, UserDoc>, bcrypt: Bcrypt, m: Minter, hashed: string)
    requires "a@x.com" !in docs
    requires bcrypt.hash("pw1") == Ok(hashed)
    requires bcrypt.verify(hashed, "pw1") && !bcrypt.verify(hashed, "wrong")
    requires m.rand.Filled?
    ensures var req := Credentials("a@x.com", "pw1");
            var first := CreateAccount(req, bcrypt, docs, None);
            var second := CreateAccount(req, bcrypt, first.docs, None);
      && first.response.status == StatusCreated
      && second.response.status == StatusConflict
      && LoginHandler(req, second.docs, None, bcrypt, m).status == StatusOK
      && LoginHandler(Credentials("a@x.com", "wrong"), second.docs, None, bcrypt, m).status == StatusUnauthorized
  {
  }
}
