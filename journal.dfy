/** The two routes together, as the journal's pages use them: log in, write
    a post with the cookie the login handed out, read the list back. */
module Journal {
  import opened Common
  import opened Api
  import opened Bindings
  import opened Images
  import opened JsString
  import Posts
  import Auth

  /** A deployment with nothing configured: no bindings, no secret, no
      NODE_ENV. */
  const Unconfigured: Context :=
    Context(EnvObject(None, None, None, None), None, None, None, None, None)

  /** On a fresh store with nothing configured, logging in with the default
      secret (padded with spaces), posting "Hello"/"World" with the cookie
      value that login handed out, and listing gives back exactly that post,
      with id 1 and both timestamps `now`. */
  method FirstPost(now: Instant, nowMs: nat) returns (login: Response, created: Response, listed: Response)
    ensures login.status == 200
    ensures created == Response(201, PostJson(Post(1, "Hello", "World", now, now, None)), None)
    ensures listed == Response(200, PostListJson([Post(1, "Hello", "World", now, now, None)]), None)
  {
    var ctx := Unconfigured;
    var typed := " " + Auth.DefaultSecret + " ";
    login := Auth.Login(Auth.Parsed(Auth.Text(typed)), ctx);
    DefaultSecretAccepted(typed);
    Auth.LoginAdmitsWrites(Auth.Parsed(Auth.Text(typed)), ctx);
    var cookie := Auth.CookiePair(login.setCookie.value).value.1;

    var store := new Posts.Store();
    var form := Posts.Form(Some("Hello"), Some("World"), None);
    var req := Posts.CreateRequest(Some(cookie), Success(form), "https://journal.example");
    var post := Post(1, "Hello", "World", now, now, None);
    HelloWorldAppended(req, now, nowMs);
    assert ctx.processEnv.nodeEnv == None && store.nextId == 1;
    created := store.Create(req, ctx, now, nowMs, PutDone, Posts.RowMissing);
    assert store.posts == [post];
    SingleListing(post);
    listed := store.List(ctx, Posts.Rows(None));
  }

  /** An authorised "Hello"/"World" form without an image, with nothing
      configured, is appended as the store's next post. */
  lemma HelloWorldAppended(req: Posts.CreateRequest, now: Instant, nowMs: nat)
    requires Posts.Authorized(req.authCookie)
    requires req.form == Success(Posts.Form(Some("Hello"), Some("World"), None))
    ensures Posts.DecideCreate(req, Located(Unconfigured), None, now, nowMs, PutDone, Posts.RowMissing, 1)
            == Posts.Append(Post(1, "Hello", "World", now, now, None))
  {
    UnconfiguredLocatesNothing();
    assert Posts.HasRequiredFields(req.form.value);
    Posts.CreateAppendsToStore(req, None, None, now, nowMs, PutDone, Posts.RowMissing, 1);
  }

  /** A store holding one post lists as that post. */
  lemma SingleListing(p: Post)
    ensures Posts.ListResponse(Located(Unconfigured), None, Posts.Rows(None), [p])
            == Response(200, PostListJson([p]), None)
  {
    UnconfiguredLocatesNothing();
    assert [p][1..] == [];
    assert Posts.SortNewestFirst([p]) == Posts.InsertByTime(p, []);
    assert [p] + [] == [p];
  }

  /** With nothing configured, neither binding is found. */
  lemma UnconfiguredLocatesNothing()
    ensures Located(Unconfigured) == None
  {
    LocatedNullIff(Unconfigured);
  }

  /** With nothing configured, the default secret padded with spaces logs
      in. */
  lemma DefaultSecretAccepted(typed: string)
    requires typed == " " + Auth.DefaultSecret + " "
    ensures Auth.Login(Auth.Parsed(Auth.Text(typed)), Unconfigured).status == 200
  {
    Auth.ExpectedSecretChoice(Unconfigured);
    assert AllWhitespace(" ");
    TrimIgnoresPadding(" ", Auth.DefaultSecret, " ");
    Auth.LoginDecision(Auth.Text(typed), Unconfigured);
  }
}
