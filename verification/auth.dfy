/** Authentication in api/auth.go: reading the `Authorization` header, and
    the guards of logging in and registering. Users are a list in id
    order; a user's tokens are kept as the set of tokens it may present
    (the database stores their hashes). Password hashing is a parameter. */
module Auth {
  import opened Wrappers
  import opened Http
  import opened Text

  const AuthHeader := "LINDEB-TOKEN"
  const UserField := "LINDEB-TOKEN user="
  const TokenField := " token="

  datatype User = User(id: int, username: string, passwordHash: string, tokens: set<string>)

  /** `apiUser`, the JSON form of a user. */
  datatype ApiUser = ApiUser(id: int, username: string, password: string, authToken: string)

  /** `dbToAPIUser`: the id and name only. */
  function DbToApiUser(u: User): (a: ApiUser)
    ensures a.id == u.id && a.username == u.username
    ensures a.password == "" && a.authToken == ""
  {
    ApiUser(u.id, u.username, "", "")
  }

  // ---------------------------------------------------------------------
  // The token pattern
  // ---------------------------------------------------------------------

  /** The length of the run of characters satisfying `p` at the start of `s`. */
  function RunLength(s: string, p: char -> bool): (n: nat)
    ensures n <= |s|
    ensures forall k :: 0 <= k < n ==> p(s[k])
    ensures n < |s| ==> !p(s[n])
  {
    if |s| == 0 || !p(s[0]) then 0 else 1 + RunLength(s[1..], p)
  }

  /** A run of characters satisfying `p` ends where one does not. */
  lemma {:induction false} RunLengthOf(a: string, b: string, p: char -> bool)
    requires forall k :: 0 <= k < |a| ==> p(a[k])
    requires |b| == 0 || !p(b[0])
    ensures RunLength(a + b, p) == |a|
  {
    if |a| > 0 {
      assert (a + b)[1..] == a[1..] + b;
      RunLengthOf(a[1..], b, p);
    } else {
      assert a + b == b;
    }
  }

  /** `LINDEB-TOKEN user=([0-9]+) token=([A-Za-z]+)` matched at position 0
      of `s`: the user digits and the token letters. Both groups are
      greedy, and nothing after them in the pattern can take back a
      character, so each is the longest run at its place. */
  function MatchHere(s: string): (m: Option<(string, string)>)
    ensures m.Some? ==> |m.value.0| > 0 && AllDigits(m.value.0) && |m.value.1| > 0 && AllLetters(m.value.1)
  {
    if !HasPrefix(s, UserField) then None
    else
      var rest := s[|UserField|..];
      var d := RunLength(rest, IsDigit);
      if d == 0 || !HasPrefix(rest[d..], TokenField) then None
      else
        var tail := rest[d..][|TokenField|..];
        var t := RunLength(tail, IsAsciiLetter);
        if t == 0 then None else Some((rest[..d], tail[..t]))
  }

  /** `FindStringSubmatch`: the leftmost match, searched from position `i`. */
  function FindMatch(s: string, i: nat): (m: Option<(string, string)>)
    requires i <= |s|
    ensures m.Some? ==> |m.value.0| > 0 && AllDigits(m.value.0) && |m.value.1| > 0 && AllLetters(m.value.1)
    decreases |s| - i
  {
    match MatchHere(s[i..])
    case Some(m) => Some(m)
    case None => if i == |s| then None else FindMatch(s, i + 1)
  }

  /** The match starting at position 0 is the one `FindMatch` returns. */
  lemma MatchAtStart(s: string)
    requires MatchHere(s).Some?
    ensures FindMatch(s, 0) == MatchHere(s)
  {
    assert s[0..] == s;
  }

  /** The header a user id and token are sent in, followed by whatever the
      sender appends. */
  function HeaderText(digits: string, token: string, suffix: string): string {
    UserField + digits + TokenField + token + suffix
  }

  lemma PrefixThenRest(p: string, r: string)
    ensures HasPrefix(p + r, p) && (p + r)[|p|..] == r
  {
    assert (p + r)[..|p|] == p;
  }

  /** Parsing the formatted header gives back the digits and the token, as
      long as what follows the token does not start with a letter: only
      letters belong to the token. */
  lemma HeaderMatches(digits: string, token: string, suffix: string)
    requires |digits| > 0 && AllDigits(digits)
    requires |token| > 0 && AllLetters(token)
    requires |suffix| == 0 || !IsAsciiLetter(suffix[0])
    ensures FindMatch(HeaderText(digits, token, suffix), 0) == Some((digits, token))
  {
    var tail := token + suffix;
    var rest := digits + (TokenField + tail);
    var s := UserField + rest;
    HeaderShape(digits, token, suffix);
    PrefixThenRest(UserField, rest);
    DigitsThenToken(digits, tail);
    TokenThenSuffix(token, suffix);
    assert MatchHere(s) == Some((digits, token));
    MatchAtStart(s);
  }

  /** The header is the user field followed by the rest, grouped from the
      right. */
  lemma HeaderShape(digits: string, token: string, suffix: string)
    ensures HeaderText(digits, token, suffix) == UserField + (digits + (TokenField + (token + suffix)))
  {
  }

  /** After the user field: the digits are the whole digit run, and the
      token field follows them. */
  lemma DigitsThenToken(digits: string, tail: string)
    requires AllDigits(digits)
    ensures var rest := digits + (TokenField + tail);
            && RunLength(rest, IsDigit) == |digits|
            && rest[..|digits|] == digits
            && HasPrefix(rest[|digits|..], TokenField)
            && rest[|digits|..][|TokenField|..] == tail
  {
    var after := TokenField + tail;
    assert after[0] == ' ';
    RunLengthOf(digits, after, IsDigit);
    PrefixThenRest(digits, after);
    PrefixThenRest(TokenField, tail);
  }

  /** After the token field: the token is the whole letter run. */
  lemma TokenThenSuffix(token: string, suffix: string)
    requires AllLetters(token)
    requires |suffix| == 0 || !IsAsciiLetter(suffix[0])
    ensures RunLength(token + suffix, IsAsciiLetter) == |token|
    ensures (token + suffix)[..|token|] == token
  {
    RunLengthOf(token, suffix, IsAsciiLetter);
    PrefixThenRest(token, suffix);
  }

  /** The captured token stops at the first non-letter: anything after it,
      letters included, is dropped. */
  lemma TokenStopsAtNonLetter(digits: string, token: string, c: char, more: string)
    requires |digits| > 0 && AllDigits(digits)
    requires |token| > 0 && AllLetters(token)
    requires !IsAsciiLetter(c)
    ensures FindMatch(HeaderText(digits, token, [c] + more), 0) == Some((digits, token))
  {
    HeaderMatches(digits, token, [c] + more);
  }

  // ---------------------------------------------------------------------
  // Looking users up
  // ---------------------------------------------------------------------

  /** `GetUser(id)`. */
  function UserById(users: seq<User>, id: int): (u: Option<User>)
    ensures u.Some? ==> u.value in users && u.value.id == id
    ensures u.None? ==> forall k :: 0 <= k < |users| ==> users[k].id != id
  {
    if |users| == 0 then None
    else if users[0].id == id then Some(users[0])
    else UserById(users[1..], id)
  }

  /** `GetUserByName`. */
  function UserByName(users: seq<User>, name: string): (u: Option<User>)
    ensures u.Some? ==> u.value in users && u.value.username == name
    ensures u.None? ==> forall k :: 0 <= k < |users| ==> users[k].username != name
  {
    if |users| == 0 then None
    else if users[0].username == name then Some(users[0])
    else UserByName(users[1..], name)
  }

  /** `GetUser`: the user a request's `Authorization` header names, or
      `None` for an empty header, one not starting with "LINDEB-TOKEN", no
      match of the pattern, a user id out of 64-bit range, an unknown user
      or a token the user does not hold. */
  function GetUser(header: string, users: seq<User>): (u: Option<User>)
    ensures |header| == 0 || !HasPrefix(header, AuthHeader) || FindMatch(header, 0).None? ==> u.None?
    ensures u.Some? ==>
              var m := FindMatch(header, 0).value;
              && Atoi(m.0) == Some(u.value.id) && u.value in users && m.1 in u.value.tokens
  {
    if |header| == 0 || !HasPrefix(header, AuthHeader) then None
    else match FindMatch(header, 0)
      case None => None
      case Some(m) =>
        match Atoi(m.0)
        case None => None
        case Some(id) =>
          match UserById(users, id)
          case None => None
          case Some(u) => if m.1 in u.tokens then Some(u) else None
  }

  /** A header built from a user's id and one of its tokens authenticates
      that user (the first with that id). */
  lemma GetUserRoundTrip(users: seq<User>, u: User, token: string, suffix: string)
    requires 0 <= u.id <= MaxInt64 && UserById(users, u.id) == Some(u)
    requires |token| > 0 && AllLetters(token) && token in u.tokens
    requires |suffix| == 0 || !IsAsciiLetter(suffix[0])
    ensures GetUser(HeaderText(NatToDecimal(u.id), token, suffix), users) == Some(u)
  {
    var d := NatToDecimal(u.id);
    HeaderMatches(d, token, suffix);
    HeaderNamesScheme(d, token, suffix);
    AtoiRoundTrip(u.id);
  }

  /** Every header built this way is non-empty and starts with the scheme
      name. */
  lemma HeaderNamesScheme(digits: string, token: string, suffix: string)
    ensures |HeaderText(digits, token, suffix)| > 0 && HasPrefix(HeaderText(digits, token, suffix), AuthHeader)
  {
    var h := HeaderText(digits, token, suffix);
    HeaderShape(digits, token, suffix);
    assert h[..|AuthHeader|] == UserField[..|AuthHeader|];
    assert UserField[..|AuthHeader|] == AuthHeader;
  }

  // ---------------------------------------------------------------------
  // Logging in and registering
  // ---------------------------------------------------------------------

  /** The guard as written: an empty header never starts with
      "LINDEB-TOKEN", so it never holds. */
  predicate SendsHeaderAsWritten(header: string) {
    |header| == 0 && HasPrefix(header, AuthHeader)
  }

  lemma SendsHeaderAsWrittenNever(header: string)
    ensures !SendsHeaderAsWritten(header)
  {
  }

  /** The guard the error message describes: a lindeb header was sent. */
  predicate SendsHeader(header: string) {
    |header| > 0 && HasPrefix(header, AuthHeader)
  }

  /** What logging in or registering needs from outside: whether a
      password matches a user's hash, the hash of a new password, the
      fresh token and the id a new user gets. */
  datatype AuthEnv = AuthEnv(passwordMatches: (User, string) -> bool, hash: string -> string,
                             newToken: string, newId: int)

  /** The login proper, after the header guard: 400 for a body that does
      not decode, 401 for an unknown user or a wrong password, else the
      user with a fresh token, which is stored. */
  function LoginChecked(env: AuthEnv, body: Result<ApiUser>, users: seq<User>)
    : (r: (Reply<ApiUser>, seq<User>))
    ensures body.Err? ==> r == (Status(StatusBadRequest), users)
    ensures body.Ok? ==>
              var u := UserByName(users, body.value.username);
              && (r.0 == Status(StatusUnauthorized) <==> u.None? || !env.passwordMatches(u.value, body.value.password))
              && (r.0.Json? ==> r.0 == Json(StatusOK, DbToApiUser(u.value).(authToken := env.newToken)))
    ensures r.0.Code() == StatusOK <==>
              body.Ok? && UserByName(users, body.value.username).Some?
              && env.passwordMatches(UserByName(users, body.value.username).value, body.value.password)
    ensures r.0.Code() != StatusOK ==> r.1 == users
    ensures r.0.Code() == StatusOK ==>
              var u := UserByName(users, body.value.username).value;
              && |r.1| == |users|
              && forall k :: 0 <= k < |users| ==>
                   r.1[k] == if users[k] == u then users[k].(tokens := users[k].tokens + {env.newToken}) else users[k]
  {
    match body
    case Err(_) => (Status(StatusBadRequest), users)
    case Ok(input) =>
      match UserByName(users, input.username)
      case None => (Status(StatusUnauthorized), users)
      case Some(u) =>
        if !env.passwordMatches(u, input.password) then (Status(StatusUnauthorized), users)
        else (Json(StatusOK, DbToApiUser(u).(authToken := env.newToken)), WithToken(users, u, env.newToken))
  }

  /** `GenerateAuthToken`: the user is stored with one more token; every
      other user is kept. */
  function WithToken(users: seq<User>, u: User, token: string): (r: seq<User>)
    ensures |r| == |users|
    ensures forall k :: 0 <= k < |users| ==>
              r[k] == if users[k] == u then users[k].(tokens := users[k].tokens + {token}) else users[k]
  {
    seq(|users|, k requires 0 <= k < |users| =>
          if users[k] == u then users[k].(tokens := users[k].tokens + {token}) else users[k])
  }

  /** Adding a token keeps every id, so the user found by an id is the
      same one, holding the token when it is the user logged in. */
  lemma {:induction false} WithTokenFindsUser(users: seq<User>, u: User, token: string)
    requires UserById(users, u.id) == Some(u)
    ensures UserById(WithToken(users, u, token), u.id) == Some(u.(tokens := u.tokens + {token}))
  {
    var r := WithToken(users, u, token);
    if users[0].id == u.id {
      assert users[0] == u && r[0] == u.(tokens := u.tokens + {token});
    } else {
      assert users[0] != u && r[0] == users[0];
      assert r[1..] == WithToken(users[1..], u, token);
      WithTokenFindsUser(users[1..], u, token);
    }
  }

  /** After a successful login, the header built from the user's id and
      the token it was handed authenticates that user, who now holds the
      token. */
  lemma LoginThenAuthenticates(env: AuthEnv, body: Result<ApiUser>, users: seq<User>, suffix: string)
    requires body.Ok? && LoginChecked(env, body, users).0.Code() == StatusOK
    requires var u := UserByName(users, body.value.username).value;
             0 <= u.id <= MaxInt64 && UserById(users, u.id) == Some(u)
    requires |env.newToken| > 0 && AllLetters(env.newToken)
    requires |suffix| == 0 || !IsAsciiLetter(suffix[0])
    ensures var u := UserByName(users, body.value.username).value;
            var r := LoginChecked(env, body, users);
            && r.0 == Json(StatusOK, DbToApiUser(u).(authToken := env.newToken))
            && GetUser(HeaderText(NatToDecimal(u.id), env.newToken, suffix), r.1)
               == Some(u.(tokens := u.tokens + {env.newToken}))
  {
    var u := UserByName(users, body.value.username).value;
    var r := LoginChecked(env, body, users);
    assert r.1 == WithToken(users, u, env.newToken);
    WithTokenFindsUser(users, u, env.newToken);
    GetUserRoundTrip(r.1, u.(tokens := u.tokens + {env.newToken}), env.newToken, suffix);
  }

  /** The registration proper: 400 for a body that does not decode, 409
      for a taken name, else a new user with a fresh token. */
  function RegisterChecked(env: AuthEnv, body: Result<ApiUser>, users: seq<User>)
    : (r: (Reply<ApiUser>, seq<User>))
    ensures body.Err? ==> r == (Status(StatusBadRequest), users)
    ensures body.Ok? && UserByName(users, body.value.username).Some? ==> r == (Status(StatusConflict), users)
    ensures r.0.Code() == StatusCreated <==> body.Ok? && UserByName(users, body.value.username).None?
    ensures r.0.Code() == StatusCreated ==>
              r.0 == Json(StatusCreated, ApiUser(env.newId, body.value.username, "", env.newToken))
              && r.1 == users + [User(env.newId, body.value.username, env.hash(body.value.password), {env.newToken})]
  {
    match body
    case Err(_) => (Status(StatusBadRequest), users)
    case Ok(input) =>
      if UserByName(users, input.username).Some? then (Status(StatusConflict), users)
      else
        var u := User(env.newId, input.username, env.hash(input.password), {env.newToken});
        (Json(StatusCreated, DbToApiUser(u).(authToken := env.newToken)), users + [u])
  }

  /** Registering never gives two users the same name. */
  lemma RegisterKeepsNamesUnique(env: AuthEnv, body: Result<ApiUser>, users: seq<User>)
    requires forall i, j :: 0 <= i < j < |users| ==> users[i].username != users[j].username
    ensures var us := RegisterChecked(env, body, users).1;
            forall i, j :: 0 <= i < j < |us| ==> us[i].username != us[j].username
  {
  }

  /** `Login` and `Register` as written: the guard never fires (and would
      not return if it did), so the header is ignored. */
  function LoginAsWritten(env: AuthEnv, header: string, body: Result<ApiUser>, users: seq<User>)
    : (r: (Reply<ApiUser>, seq<User>))
  {
    if SendsHeaderAsWritten(header) then LoginChecked(env, body, users)
    else LoginChecked(env, body, users)
  }

  function RegisterAsWritten(env: AuthEnv, header: string, body: Result<ApiUser>, users: seq<User>)
    : (r: (Reply<ApiUser>, seq<User>))
  {
    if SendsHeaderAsWritten(header) then RegisterChecked(env, body, users)
    else RegisterChecked(env, body, users)
  }

  /** `Login` and `Register` refusing a lindeb header with 403. */
  function Login(env: AuthEnv, header: string, body: Result<ApiUser>, users: seq<User>)
    : (r: (Reply<ApiUser>, seq<User>))
    ensures SendsHeader(header) ==> r == (Status(StatusForbidden), users)
    ensures !SendsHeader(header) ==> r == LoginChecked(env, body, users)
  {
    if SendsHeader(header) then (Status(StatusForbidden), users) else LoginChecked(env, body, users)
  }

  function Register(env: AuthEnv, header: string, body: Result<ApiUser>, users: seq<User>)
    : (r: (Reply<ApiUser>, seq<User>))
    ensures SendsHeader(header) ==> r == (Status(StatusForbidden), users)
    ensures !SendsHeader(header) ==> r == RegisterChecked(env, body, users)
  {
    if SendsHeader(header) then (Status(StatusForbidden), users) else RegisterChecked(env, body, users)
  }

  /** As written, logging in with a lindeb header still succeeds; the
      guard meant to refuse it refuses it. */
  lemma LoginIgnoresHeaderAsWritten(env: AuthEnv, body: Result<ApiUser>, users: seq<User>)
    ensures LoginAsWritten(env, "LINDEB-TOKEN user=1 token=a", body, users) == LoginChecked(env, body, users)
    ensures RegisterAsWritten(env, "LINDEB-TOKEN user=1 token=a", body, users) == RegisterChecked(env, body, users)
    ensures Login(env, "LINDEB-TOKEN user=1 token=a", body, users).0 == Status(StatusForbidden)
    ensures Register(env, "LINDEB-TOKEN user=1 token=a", body, users).0 == Status(StatusForbidden)
  {
    assert SendsHeader("LINDEB-TOKEN user=1 token=a");
  }
}
