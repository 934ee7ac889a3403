/** The request bodies and the constraints checked on them before a handler
    does anything else. A check yields each failing field's name with the value
    it rejected; the empty map means the request is valid. Lengths count
    characters. */
module Requests {

  datatype SignupRequest = SignupRequest(email: string, username: string, password: string)

  datatype LoginRequest = LoginRequest(email: string, password: string)

  datatype CreatePostRequest = CreatePostRequest(title: string, content: string)

  /** A `length(min, max)` rule: inclusive bounds. */
  predicate InLength(s: string, min: nat, max: nat)
  {
    min <= |s| <= max
  }

  /** Signup: a well-formed email, a username of 3 to 20 characters and a
      password of 8 to 100 characters. */
  function SignupFailures(req: SignupRequest, isEmail: string -> bool): (r: map<string, string>)
    ensures r.Keys <= {"email", "username", "password"}
    ensures "email" in r <==> !isEmail(req.email)
    ensures "username" in r <==> !(3 <= |req.username| <= 20)
    ensures "password" in r <==> !(8 <= |req.password| <= 100)
    ensures "email" in r ==> r["email"] == req.email
    ensures "username" in r ==> r["username"] == req.username
    ensures "password" in r ==> r["password"] == req.password
    ensures r == map[] <==> isEmail(req.email) && 3 <= |req.username| <= 20 && 8 <= |req.password| <= 100
  {
    (if isEmail(req.email) then map[] else map["email" := req.email])
    + (if InLength(req.username, 3, 20) then map[] else map["username" := req.username])
    + (if InLength(req.password, 8, 100) then map[] else map["password" := req.password])
  }

  /** Login: only the email format is checked. */
  function LoginFailures(req: LoginRequest, isEmail: string -> bool): (r: map<string, string>)
    ensures r == map[] <==> isEmail(req.email)
    ensures r.Keys <= {"email"}
    ensures "email" in r ==> r["email"] == req.email
  {
    if isEmail(req.email) then map[]
    else
      var r := map["email" := req.email];
      assert "email" in r;
      r
  }

  /** The password of a login request plays no part in its validation. */
  lemma LoginPasswordUnchecked(email: string, password1: string, password2: string, isEmail: string -> bool)
    ensures LoginFailures(LoginRequest(email, password1), isEmail) == LoginFailures(LoginRequest(email, password2), isEmail)
  {
  }

  /** A post: a title of 1 to 200 characters and content of 1 to 5000 characters. */
  function CreatePostFailures(req: CreatePostRequest): (r: map<string, string>)
    ensures r.Keys <= {"title", "content"}
    ensures "title" in r <==> !(1 <= |req.title| <= 200)
    ensures "content" in r <==> !(1 <= |req.content| <= 5000)
    ensures "title" in r ==> r["title"] == req.title
    ensures "content" in r ==> r["content"] == req.content
    ensures r == map[] <==> 1 <= |req.title| <= 200 && 1 <= |req.content| <= 5000
  {
    (if InLength(req.title, 1, 200) then map[] else map["title" := req.title])
    + (if InLength(req.content, 1, 5000) then map[] else map["content" := req.content])
  }
}
