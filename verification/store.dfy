/** The in-memory store shared by every handler (`AppState`) and the handlers
    that read and change it. Each concurrent map is read as an ordinary map
    and each handler as one sequential step. */
module Store {
  import opened Wrappers
  import opened Models
  import opened Foreign
  import opened Errors
  import opened Requests
  import opened Responses
  import opened Auth
  import opened Paging

  /** How a handler ends: with a response, or never, because it waits for a
      lock that it holds itself. */
  datatype Outcome<T> = Responded(result: T) | Deadlocked

  /** The lock rule of `DashMap::remove`: it takes the write lock of the
      shard that holds `key`, so it waits forever when the caller already
      holds a guard on that shard. `held` is the set of shards the caller
      holds guards on; `shardOf` is the map's (hash-based) choice of shard. */
  predicate RemoveBlocks(held: set<nat>, key: Uuid, shardOf: Uuid -> nat)
  {
    shardOf(key) in held
  }

  /** `DashMap::remove` called while holding guards on the shards `held`:
      it either waits forever or removes the entry. */
  function RemoveHolding(m: map<Uuid, Post>, key: Uuid, held: set<nat>, shardOf: Uuid -> nat)
    : (out: Outcome<map<Uuid, Post>>)
    ensures out.Deadlocked? <==> shardOf(key) in held
    ensures out.Responded? ==> out.result.Keys == m.Keys - {key}
    ensures out.Responded? ==> forall k :: k in out.result ==> out.result[k] == m[k]
  {
    if RemoveBlocks(held, key, shardOf) then Deadlocked else Responded(m - {key})
  }

  /** The values of the entries of `m` whose keys are in `keys`. */
  ghost function ValuesOf(m: map<Uuid, Post>, keys: set<Uuid>): set<Post>
    requires keys <= m.Keys
  {
    set k | k in keys :: m[k]
  }

  /** `s` lists every post of `m` exactly once, in some order. */
  ghost predicate Enumerates(s: seq<Post>, m: map<Uuid, Post>)
  {
    |s| == |m| && multiset(s) == multiset(m.Values)
  }

  class AppState {
    var users: map<Uuid, User>
    var posts: map<Uuid, Post>
    /** Secondary index from email to the id of the user registered with it. */
    var emailIndex: map<string, Uuid>
    const jwtSecret: string

    /** The index and the user table agree, and every record sits under its own id. */
    ghost predicate Valid()
      reads this
    {
      && (forall e :: e in emailIndex ==> emailIndex[e] in users && users[emailIndex[e]].email == e)
      && (forall id :: id in users ==>
            users[id].id == id && users[id].email in emailIndex && emailIndex[users[id].email] == id)
      && (forall id :: id in posts ==> posts[id].id == id)
    }

    constructor (secret: string)
      ensures Valid()
      ensures users == map[] && posts == map[] && emailIndex == map[] && jwtSecret == secret
    {
      users, posts, emailIndex := map[], map[], map[];
      jwtSecret := secret;
    }

    /** In a valid store no two users share an email. */
    lemma EmailsUnique(id1: Uuid, id2: Uuid)
      requires Valid()
      requires id1 in users && id2 in users && users[id1].email == users[id2].email
      ensures id1 == id2
    {
      assert emailIndex[users[id1].email] == id1;
    }

    /** POST /auth/signup. `hashed` is what bcrypt's hash returned for the
        password, `freshId` the id `Uuid::new_v4` drew, `createdAt` and
        `issuedAt` the two readings of the clock. An invalid request or a
        taken email (exact, case-sensitive match) changes nothing; so does any
        later failure, since the token is made before the two inserts. */
    method Signup(req: SignupRequest, hashed: Result<string, string>, freshId: Uuid,
                  createdAt: int, issuedAt: int, crates: Crates)
      returns (r: Result<AuthResponse, ApiError>)
      requires Valid()
      requires freshId !in users
      modifies this
      ensures Valid()
      ensures posts == old(posts)
      ensures SignupFailures(req, crates.isEmail) != map[] ==>
        r == Err(ValidationError(crates.describe(SignupFailures(req, crates.isEmail))))
      ensures SignupFailures(req, crates.isEmail) == map[] && req.email in old(emailIndex) ==>
        r == Err(UserAlreadyExists)
      ensures SignupFailures(req, crates.isEmail) == map[] && req.email !in old(emailIndex) && r.Err? ==>
        r.error.InternalError?
      ensures r.Err? ==> users == old(users) && emailIndex == old(emailIndex)
      ensures r.Ok? <==>
        SignupFailures(req, crates.isEmail) == map[] && req.email !in old(emailIndex) && hashed.Ok? &&
        CreateToken(freshId, req.email, jwtSecret, issuedAt, crates).Ok?
      ensures r.Ok? ==>
        var user := User(freshId, req.email, req.username, hashed.value, createdAt);
        && emailIndex == old(emailIndex)[req.email := freshId]
        && users == old(users)[freshId := user]
        && r.value == AuthResponse(CreateToken(freshId, req.email, jwtSecret, issuedAt, crates).value, FromUser(user))
    {
      var failures := SignupFailures(req, crates.isEmail);
      if failures != map[] {
        return Err(ValidationError(crates.describe(failures)));
      }
      if req.email in emailIndex {
        return Err(UserAlreadyExists);
      }
      if hashed.Err? {
        return Err(InternalError("Password hashing failed: " + hashed.error));
      }
      var user := User(freshId, req.email, req.username, hashed.value, createdAt);
      var token := CreateToken(user.id, user.email, jwtSecret, issuedAt, crates);
      if token.Err? {
        return Err(token.error);
      }
      emailIndex := emailIndex[user.email := user.id];
      users := users[user.id := user];
      r := Ok(AuthResponse(token.value, FromUser(user)));
    }

    /** POST /auth/login: a chain of lookups (email to id, id to user) and a
        password check. Every way of failing to match credentials, including
        an index entry with no user behind it, is `InvalidCredentials`; a
        failing verifier and a token that cannot be made are internal errors,
        and nothing else is. */
    function Login(req: LoginRequest, now: int, crates: Crates): (r: Result<AuthResponse, ApiError>)
      reads this
      ensures LoginFailures(req, crates.isEmail) != map[] ==>
        r == Err(ValidationError(crates.describe(LoginFailures(req, crates.isEmail))))
      ensures (LoginFailures(req, crates.isEmail) == map[] &&
               (req.email !in emailIndex || emailIndex[req.email] !in users)) ==>
        r == Err(InvalidCredentials)
      ensures (LoginFailures(req, crates.isEmail) == map[] && req.email in emailIndex && emailIndex[req.email] in users &&
               crates.verify(req.password, users[emailIndex[req.email]].hashedPassword) == Ok(false)) ==>
        r == Err(InvalidCredentials)
      ensures (LoginFailures(req, crates.isEmail) == map[] && req.email in emailIndex && emailIndex[req.email] in users &&
               crates.verify(req.password, users[emailIndex[req.email]].hashedPassword).Err?) ==>
        r == Err(InternalError("Password verification failed: " +
                               crates.verify(req.password, users[emailIndex[req.email]].hashedPassword).error))
      ensures (LoginFailures(req, crates.isEmail) == map[] && req.email in emailIndex && emailIndex[req.email] in users &&
               crates.verify(req.password, users[emailIndex[req.email]].hashedPassword) == Ok(true) &&
               CreateToken(users[emailIndex[req.email]].id, users[emailIndex[req.email]].email, jwtSecret, now, crates).Err?) ==>
        r.Err? && r.error.InternalError?
      ensures r.Err? ==> r.error.ValidationError? || r.error == InvalidCredentials || r.error.InternalError?
      ensures r.Ok? <==>
        LoginFailures(req, crates.isEmail) == map[] && req.email in emailIndex && emailIndex[req.email] in users &&
        crates.verify(req.password, users[emailIndex[req.email]].hashedPassword) == Ok(true) &&
        CreateToken(users[emailIndex[req.email]].id, users[emailIndex[req.email]].email, jwtSecret, now, crates).Ok?
      ensures r.Ok? ==>
        var u := users[emailIndex[req.email]];
        r.value == AuthResponse(CreateToken(u.id, u.email, jwtSecret, now, crates).value, FromUser(u))
    {
      var failures := LoginFailures(req, crates.isEmail);
      if failures != map[] then Err(ValidationError(crates.describe(failures)))
      else if req.email !in emailIndex then Err(InvalidCredentials)
      else if emailIndex[req.email] !in users then Err(InvalidCredentials)
      else
        var user := users[emailIndex[req.email]];
        match crates.verify(req.password, user.hashedPassword)
        case Err(e) => Err(InternalError("Password verification failed: " + e))
        case Ok(false) => Err(InvalidCredentials)
        case Ok(true) =>
          match CreateToken(user.id, user.email, jwtSecret, now, crates)
          case Err(e) => Err(e)
          case Ok(token) => Ok(AuthResponse(token, FromUser(user)))
    }

    /** In a valid store, logging in with a registered email succeeds exactly
        when the password verifies (and a token can be made), returning that
        user; a password that does not verify gives `InvalidCredentials`. */
    lemma LoginOfRegisteredUser(id: Uuid, password: string, now: int, crates: Crates)
      requires Valid()
      requires id in users && crates.isEmail(users[id].email)
      ensures crates.verify(password, users[id].hashedPassword) == Ok(false) ==>
        Login(LoginRequest(users[id].email, password), now, crates) == Err(InvalidCredentials)
      ensures (crates.verify(password, users[id].hashedPassword) == Ok(true) &&
               CreateToken(id, users[id].email, jwtSecret, now, crates).Ok?) ==>
        Login(LoginRequest(users[id].email, password), now, crates) ==
          Ok(AuthResponse(CreateToken(id, users[id].email, jwtSecret, now, crates).value, FromUser(users[id])))
    {
      assert emailIndex[users[id].email] == id;
    }

    /** In a valid store, an email no user has never logs in. */
    lemma LoginOfUnknownEmail(req: LoginRequest, now: int, crates: Crates)
      requires Valid()
      requires crates.isEmail(req.email)
      requires forall id :: id in users ==> users[id].email != req.email
      ensures Login(req, now, crates) == Err(InvalidCredentials)
    {
    }

    /** GET /users/me: the caller's profile. A bad token or subject is
        `Unauthorized`; a valid id with no user is `NotFound`. */
    function GetCurrentUser(authorization: Option<seq<byte>>, now: int, crates: Crates): (r: Result<UserResponse, ApiError>)
      reads this
      ensures Authenticate(authorization, jwtSecret, now, crates).Err? ==> r == Err(Unauthorized)
      ensures Authenticate(authorization, jwtSecret, now, crates).Ok? ==>
        var id := Authenticate(authorization, jwtSecret, now, crates).value;
        && (id !in users ==> r == Err(NotFound))
        && (id in users ==> r == Ok(FromUser(users[id])))
    {
      match Authenticate(authorization, jwtSecret, now, crates)
      case Err(e) => Err(e)
      case Ok(id) => if id in users then Ok(FromUser(users[id])) else Err(NotFound)
    }

    /** Under the token and id hypotheses, the token issued for a stored user
        (as signup and login issue it) brings that user's profile back from
        GET /users/me for the whole day the token is valid. */
    lemma IssuedTokenIdentifiesUser(id: Uuid, issuedAt: int, now: int, token: string, crates: Crates)
      requires JwtRoundTrips(crates) && JwtTokensVisible(crates) && UuidTextRoundTrips(crates)
      requires id in users
      requires CreateToken(id, users[id].email, jwtSecret, issuedAt, crates) == Ok(token)
      requires 0 <= issuedAt + DaySeconds < UsizeModulus && now <= issuedAt + DaySeconds
      ensures VisibleAscii(BearerPrefix + token)
      ensures GetCurrentUser(Some(AsciiBytes(BearerPrefix + token)), now, crates) == Ok(FromUser(users[id]))
    {
      AuthenticateIssued(id, users[id].email, jwtSecret, issuedAt, now, token, crates);
    }

    /** GET /posts/:id. */
    function GetPost(id: Uuid): (r: Result<Post, ApiError>)
      reads this
      ensures r.Ok? <==> id in posts
      ensures r.Ok? ==> r.value == posts[id]
      ensures r.Err? ==> r.error == NotFound
    {
      if id in posts then Ok(posts[id]) else Err(NotFound)
    }

    /** POST /posts: validates the body first, then authenticates, then stores
        a post owned by the caller under the fresh id and answers 201. */
    method CreatePost(req: CreatePostRequest, authorization: Option<seq<byte>>, freshId: Uuid,
                      now: int, createdAt: int, crates: Crates)
      returns (r: Result<(nat, Post), ApiError>)
      requires Valid()
      requires freshId !in posts
      modifies this
      ensures Valid()
      ensures users == old(users) && emailIndex == old(emailIndex)
      ensures CreatePostFailures(req) != map[] ==> r == Err(ValidationError(crates.describe(CreatePostFailures(req))))
      ensures CreatePostFailures(req) == map[] && Authenticate(authorization, jwtSecret, now, crates).Err? ==>
        r == Err(Unauthorized)
      ensures r.Err? ==> posts == old(posts)
      ensures r.Ok? <==> CreatePostFailures(req) == map[] && Authenticate(authorization, jwtSecret, now, crates).Ok?
      ensures r.Ok? ==>
        var post := Post(freshId, Authenticate(authorization, jwtSecret, now, crates).value, req.title, req.content, createdAt);
        && r.value == (StatusCreated, post)
        && posts == old(posts)[freshId := post]
        && GetPost(freshId) == Ok(post)
    {
      var failures := CreatePostFailures(req);
      if failures != map[] {
        return Err(ValidationError(crates.describe(failures)));
      }
      var caller := Authenticate(authorization, jwtSecret, now, crates);
      if caller.Err? {
        return Err(caller.error);
      }
      var post := Post(freshId, caller.value, req.title, req.content, createdAt);
      posts := posts[post.id := post];
      r := Ok((StatusCreated, post));
    }

    /** The iteration of GET /posts: every stored post, in whatever order the
        keys are visited. */
    method CollectPosts() returns (s: seq<Post>)
      requires Valid()
      ensures Enumerates(s, posts)
    {
      var keys := posts.Keys;
      s := [];
      while keys != {}
        invariant keys <= posts.Keys
        invariant |s| + |keys| == |posts|
        invariant multiset(s) == multiset(ValuesOf(posts, posts.Keys - keys))
        decreases |keys|
      {
        var k :| k in keys;
        ghost var done := posts.Keys - keys;
        assert posts[k] !in ValuesOf(posts, done);
        assert ValuesOf(posts, done + {k}) == ValuesOf(posts, done) + {posts[k]};
        assert posts.Keys - (keys - {k}) == done + {k};
        s := s + [posts[k]];
        keys := keys - {k};
      }
      assert posts.Keys - keys == posts.Keys;
      assert ValuesOf(posts, posts.Keys) == posts.Values;
    }

    /** GET /posts: all posts sorted newest first, then the requested page of
        that listing; `total` counts every post whatever the page. */
    method GetPosts(params: PaginationParams) returns (resp: PaginatedResponse<Post>, ghost listing: seq<Post>)
      requires Valid()
      ensures NewestFirst(listing) && Enumerates(listing, posts)
      ensures resp == PaginatedResponse(Window(listing, params.page, params.limit), params.page, params.limit, |posts|)
      ensures resp.total == |posts| && resp.page == params.page && resp.limit == params.limit
      ensures |resp.data| <= params.limit && NewestFirst(resp.data)
      ensures multiset(resp.data) <= multiset(posts.Values)
      ensures PageStart(params.page, params.limit) >= |posts| ==> resp.data == []
    {
      var collected := CollectPosts();
      var a := new Post[|collected|](i requires 0 <= i < |collected| => collected[i]);
      assert a[..] == collected;
      SortNewestFirst(a);
      listing := a[..];
      assert Enumerates(listing, posts) by {
        assert |listing| == |collected| && multiset(listing) == multiset(collected);
      }
      var total := a.Length;
      var start := PageStart(params.page, params.limit);
      var end := Min(start + params.limit, total);
      var data := if start < total then a[start..end] else [];
      assert data == Window(listing, params.page, params.limit);
      WindowNewestFirst(listing, params.page, params.limit);
      assert multiset(data) <= multiset(listing) by {
        if start < total {
          assert listing == listing[..start] + data + listing[end..];
        }
      }
      resp := PaginatedResponse(data, params.page, params.limit, total);
    }

    /** DELETE /posts/:id: authenticates first, then looks the post up, then
        lets only its owner remove it. A caller who is not the owner gets the
        same `Unauthorized` as an unauthenticated one. */
    /** DELETE /posts/:id as the handler is written: the guard returned by
        `posts.get` lives to the end of the handler, so it still holds its
        shard's lock when `posts.remove` runs on the same key. The result
        pairs the response with the posts after the call. */
    function DeletePostAsWritten(authorization: Option<seq<byte>>, id: Uuid, now: int, crates: Crates,
                                 shardOf: Uuid -> nat): (out: Outcome<(Result<nat, ApiError>, map<Uuid, Post>)>)
      reads this
      ensures Authenticate(authorization, jwtSecret, now, crates).Err? ==> out == Responded((Err(Unauthorized), posts))
      ensures Authenticate(authorization, jwtSecret, now, crates).Ok? && id !in posts ==> out == Responded((Err(NotFound), posts))
      ensures (Authenticate(authorization, jwtSecret, now, crates).Ok? && id in posts &&
               posts[id].userId != Authenticate(authorization, jwtSecret, now, crates).value) ==>
        out == Responded((Err(Unauthorized), posts))
      ensures out.Deadlocked? ==>
        Authenticate(authorization, jwtSecret, now, crates).Ok? && id in posts &&
        posts[id].userId == Authenticate(authorization, jwtSecret, now, crates).value
    {
      var caller := Authenticate(authorization, jwtSecret, now, crates);
      if caller.Err? then Responded((Err(caller.error), posts))
      else if id !in posts then Responded((Err(NotFound), posts))
      else
        var held := {shardOf(id)};
        if posts[id].userId != caller.value then Responded((Err(Unauthorized), posts))
        else
          match RemoveHolding(posts, id, held, shardOf)
          case Deadlocked => Deadlocked
          case Responded(rest) => Responded((Ok(StatusNoContent), rest))
    }

    /** As written, a delete by the post's owner never answers and the post
        stays; so the handler answers only with errors and never removes a
        post, whatever shard the map picks. */
    lemma OwnerDeleteBlocks(authorization: Option<seq<byte>>, id: Uuid, now: int, crates: Crates, shardOf: Uuid -> nat)
      ensures (Authenticate(authorization, jwtSecret, now, crates).Ok? && id in posts &&
               posts[id].userId == Authenticate(authorization, jwtSecret, now, crates).value) ==>
        DeletePostAsWritten(authorization, id, now, crates, shardOf) == Deadlocked && GetPost(id) == Ok(posts[id])
      ensures DeletePostAsWritten(authorization, id, now, crates, shardOf).Responded? ==>
        DeletePostAsWritten(authorization, id, now, crates, shardOf).result.0.Err? &&
        DeletePostAsWritten(authorization, id, now, crates, shardOf).result.1 == posts
    {
    }

    /** DELETE /posts/:id as intended: the owner is copied out of the entry
        and its guard released before `posts.remove`, so the owner's delete
        removes the post and answers 204. */
    method DeletePost(authorization: Option<seq<byte>>, id: Uuid, now: int, crates: Crates)
      returns (r: Result<nat, ApiError>)
      requires Valid()
      modifies this
      ensures Valid()
      ensures users == old(users) && emailIndex == old(emailIndex)
      ensures Authenticate(authorization, jwtSecret, now, crates).Err? ==> r == Err(Unauthorized)
      ensures Authenticate(authorization, jwtSecret, now, crates).Ok? && id !in old(posts) ==> r == Err(NotFound)
      ensures (Authenticate(authorization, jwtSecret, now, crates).Ok? && id in old(posts) &&
               old(posts)[id].userId != Authenticate(authorization, jwtSecret, now, crates).value) ==>
        r == Err(Unauthorized)
      ensures r.Err? ==> posts == old(posts)
      ensures r.Ok? <==>
        Authenticate(authorization, jwtSecret, now, crates).Ok? && id in old(posts) &&
        old(posts)[id].userId == Authenticate(authorization, jwtSecret, now, crates).value
      ensures r.Ok? ==> r.value == StatusNoContent && posts == old(posts) - {id} && GetPost(id) == Err(NotFound)
    {
      var caller := Authenticate(authorization, jwtSecret, now, crates);
      if caller.Err? {
        return Err(caller.error);
      }
      if id !in posts {
        return Err(NotFound);
      }
      if posts[id].userId != caller.value {
        return Err(Unauthorized);
      }
      posts := posts - {id};
      r := Ok(StatusNoContent);
    }
  }
}
