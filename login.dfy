/** The login screen: the e-mail gate of `onHandleFormSubmit` and the retry
    counter of `loginUser`/`attemptLogin`, which posts again only when a
    request got no response, waiting `1000 * retryCount` ms first. Each
    post's result is an element of `attempts`; `validator.isEmail` is the
    parameter `isEmail`. */
module Login {
  import opened Wrappers

  /** `maxRetries` of `loginUser`. */
  const MaxLoginRetries: nat := 2

  const InvalidEmail: string := "Invalid Email"
  const ConnectionFailed: string := "Connection failed. Please check your internet."
  const UnexpectedError: string := "An unexpected error occurred"

  /** Expiry of the token cookie, in days (six hours). */
  const TokenCookieDays: real := 0.25

  /** What one login post did: it succeeded with the body's `message` and
      `jwtToken`; the server answered with an error `message`; the request
      got no response; or setting up the request failed. */
  datatype LoginAttempt = LoggedIn(message: string, jwtToken: string) | ServerError(message: string) | NoResponse | SetupError

  /** The `jwtToken` cookie as `Cookies.set` writes it. */
  datatype Cookie = Cookie(value: string, expiresDays: real, secure: bool, sameSite: string)

  /** The number of posts `loginUser` makes from the `i`-th on: it goes on
      while a post got no response and fewer than `maxRetries` retries were
      spent. */
  function Posts(attempts: seq<LoginAttempt>, i: nat): nat
    requires i <= MaxLoginRetries < |attempts|
    decreases MaxLoginRetries - i
  {
    if attempts[i].NoResponse? && i < MaxLoginRetries then Posts(attempts, i + 1) else i + 1
  }

  /** The error message the screen is left with after the last post. */
  function MessageAfter(last: LoginAttempt): string {
    match last
    case LoggedIn(_, _) => ""
    case ServerError(m) => m
    case NoResponse => ConnectionFailed
    case SetupError => UnexpectedError
  }

  /** The login form's state. */
  class LoginForm {
    var email: string
    var password: string
    var errorMessage: string
    var isLoading: bool
    var tokenCookie: Option<Cookie>

    constructor ()
      ensures email == "" && password == "" && errorMessage == "" && !isLoading && tokenCookie.None?
    {
      email, password, errorMessage, isLoading, tokenCookie := "", "", "", false, None;
    }

    /** `onHandleFormSubmit`: an address `isEmail` refuses sets "Invalid
        Email" and posts nothing; any other goes on to `loginUser`. */
    method OnHandleFormSubmit(isEmail: string -> bool, attempts: seq<LoginAttempt>) returns (posts: nat, delays: seq<int>)
      requires MaxLoginRetries < |attempts|
      modifies this
      ensures !isEmail(old(email)) ==>
        && posts == 0 && delays == [] && errorMessage == InvalidEmail
        && email == old(email) && password == old(password) && tokenCookie == old(tokenCookie)
        && isLoading == old(isLoading)
      ensures isEmail(old(email)) ==> posts == Posts(attempts, 0) && !isLoading
      ensures isEmail(old(email)) ==> Settled(attempts, posts, delays, old(email), old(password), old(tokenCookie))
    {
      if !isEmail(email) {
        errorMessage := InvalidEmail;
        return 0, [];
      }
      posts, delays := LoginUser(attempts);
    }

    /** The state `loginUser` leaves after `posts` posts: the k-th retry
        waited `1000 * k` ms; the message is that of the last post; a
        successful last post cleared the fields and set the cookie, and
        anything else left them as they were. */
    ghost predicate Settled(attempts: seq<LoginAttempt>, posts: nat, delays: seq<int>,
                            email0: string, password0: string, cookie0: Option<Cookie>)
      reads this
    {
      && 0 < posts <= |attempts|
      && |delays| == posts - 1
      && (forall k :: 0 <= k < |delays| ==> delays[k] == 1000 * (k + 1))
      && errorMessage == MessageAfter(attempts[posts - 1])
      && match attempts[posts - 1]
         case LoggedIn(_, token) =>
           email == "" && password == "" && tokenCookie == Some(Cookie(token, TokenCookieDays, true, "strict"))
         case _ => email == email0 && password == password0 && tokenCookie == cookie0
    }

    /** `loginUser`: `attemptLogin` and its retry counter, as a loop. */
    method LoginUser(attempts: seq<LoginAttempt>) returns (posts: nat, delays: seq<int>)
      requires MaxLoginRetries < |attempts|
      modifies this
      ensures posts == Posts(attempts, 0) && !isLoading
      ensures Settled(attempts, posts, delays, old(email), old(password), old(tokenCookie))
    {
      var retryCount: nat := 0;
      posts, delays := 0, [];
      while true
        invariant retryCount <= MaxLoginRetries && posts == retryCount
        invariant Posts(attempts, 0) == Posts(attempts, retryCount)
        invariant |delays| == retryCount && forall k :: 0 <= k < |delays| ==> delays[k] == 1000 * (k + 1)
        invariant email == old(email) && password == old(password) && tokenCookie == old(tokenCookie)
        decreases MaxLoginRetries - retryCount
      {
        isLoading := true;
        errorMessage := "";
        var attempt := attempts[posts];
        posts := posts + 1;
        match attempt {
          case LoggedIn(message, token) =>
            tokenCookie := Some(Cookie(token, TokenCookieDays, true, "strict"));
            email := "";
            password := "";
            isLoading := false;
            return;
          case ServerError(message) =>
            errorMessage := message;
            isLoading := false;
            return;
          case NoResponse =>
            if retryCount < MaxLoginRetries {
              retryCount := retryCount + 1;
              delays := delays + [1000 * retryCount];
              isLoading := false;
            } else {
              errorMessage := ConnectionFailed;
              isLoading := false;
              return;
            }
          case SetupError =>
            errorMessage := UnexpectedError;
            isLoading := false;
            return;
        }
      }
    }
  }

  /** The shape of a login: at most `maxRetries + 1` posts; every post but
      the last got no response; and the run stops early only at a post that
      did get an answer (or failed to be made). */
  lemma {:induction false} PostsShape(attempts: seq<LoginAttempt>, i: nat)
    requires i <= MaxLoginRetries < |attempts|
    ensures i < Posts(attempts, i) <= MaxLoginRetries + 1
    ensures forall j :: i <= j < Posts(attempts, i) - 1 ==> attempts[j].NoResponse?
    ensures Posts(attempts, i) <= MaxLoginRetries ==> !attempts[Posts(attempts, i) - 1].NoResponse?
    decreases MaxLoginRetries - i
  {
    if attempts[i].NoResponse? && i < MaxLoginRetries {
      PostsShape(attempts, i + 1);
    }
  }

  /** An error that carries a server response is never retried: the run
      stops at that post and shows the server's message. */
  lemma {:induction false} ServerErrorNotRetried(attempts: seq<LoginAttempt>, k: nat)
    requires MaxLoginRetries < |attempts| && k <= MaxLoginRetries
    requires attempts[k].ServerError? && forall j :: 0 <= j < k ==> attempts[j].NoResponse?
    ensures Posts(attempts, 0) == k + 1
    ensures MessageAfter(attempts[Posts(attempts, 0) - 1]) == attempts[k].message
  {
    PostsShape(attempts, 0);
  }

  /** Three posts without a response end the login with the connection
      message, after waits of 1 and 2 seconds. */
  lemma ExhaustedShowsConnectionFailed(attempts: seq<LoginAttempt>)
    requires MaxLoginRetries < |attempts|
    requires attempts[0].NoResponse? && attempts[1].NoResponse? && attempts[2].NoResponse?
    ensures Posts(attempts, 0) == 3
    ensures MessageAfter(attempts[Posts(attempts, 0) - 1]) == ConnectionFailed
  {
    assert Posts(attempts, 2) == 3;
    assert Posts(attempts, 1) == 3;
  }
}
