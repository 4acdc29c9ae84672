/** The posts route: listing posts newest first and creating a post. With
    a database binding the handlers defer to it (its outcome is an input
    here); without one, posts live in a process-wide store: a list of posts
    and the next id, starting as `[]` and `1`. */
module Posts {
  import opened Common
  import opened Api
  import opened Bindings
  import opened Images

  // ---------------------------------------------------------------------
  // Authorisation and validation
  // ---------------------------------------------------------------------

  /** The value of the `auth` cookie that admits a write. */
  const AuthSentinel: string := "authenticated"

  /** `authCookie && authCookie.value === "authenticated"`. */
  predicate Authorized(authCookie: Option<string>) {
    authCookie == Some(AuthSentinel)
  }

  /** The fields of the multipart form; a missing field is `None`. */
  datatype Form = Form(title: Option<string>, content: Option<string>, image: Option<ImageFile>)

  /** A create request: the `auth` cookie's value, the form or the error
      reading it threw, and the origin of the request URL. */
  datatype CreateRequest = CreateRequest(authCookie: Option<string>, form: Result<Form, ErrorMessage>, origin: string)

  /** `!(!title || !content)`: both fields present and non-empty. Nothing
      is trimmed here. */
  predicate HasRequiredFields(form: Form) {
    Truthy(form.title).Some? && Truthy(form.content).Some?
  }

  // ---------------------------------------------------------------------
  // Responses
  // ---------------------------------------------------------------------

  const Unauthorized: Response := Response(401, ErrorJson("Unauthorized", None), None)
  const MissingFields: Response := Response(400, ErrorJson("Title and content are required", None), None)
  const CreateFailed: string := "Failed to create post"
  const FetchFailed: string := "Failed to fetch posts"

  /** A caught error becomes a 500 whose details carry the error's message
      only when NODE_ENV is "development". */
  function ServerError(error: string, nodeEnv: Option<string>, message: ErrorMessage): Response {
    Response(500, ErrorJson(error, if nodeEnv == Some("development") then message else None), None)
  }

  // ---------------------------------------------------------------------
  // Listing: newest first, stable on ties
  // ---------------------------------------------------------------------

  /** Ordered by `created_at`, newest first. */
  ghost predicate NewestFirst(ps: seq<Post>) {
    forall i, j :: 0 <= i < j < |ps| ==> ps[i].createdAt >= ps[j].createdAt
  }

  /** The posts created at time `t`, in their order in `ps`. */
  function CreatedAt(ps: seq<Post>, t: Instant): seq<Post> {
    if ps == [] then []
    else (if ps[0].createdAt == t then [ps[0]] else []) + CreatedAt(ps[1..], t)
  }

  /** Puts `p` in front of the first post that is not newer than it. */
  function InsertByTime(p: Post, ps: seq<Post>): seq<Post> {
    if ps == [] || ps[0].createdAt <= p.createdAt then [p] + ps
    else [ps[0]] + InsertByTime(p, ps[1..])
  }

  /** `[...posts].sort((a, b) => time(b) - time(a))`: a stable sort of a
      copy, newest first. */
  function SortNewestFirst(ps: seq<Post>): seq<Post> {
    if ps == [] then [] else InsertByTime(ps[0], SortNewestFirst(ps[1..]))
  }

  lemma {:induction false} CreatedAtAppend(a: seq<Post>, b: seq<Post>, t: Instant)
    ensures CreatedAt(a + b, t) == CreatedAt(a, t) + CreatedAt(b, t)
  {
    if a == [] {
      assert a + b == b;
    } else {
      var head := if a[0].createdAt == t then [a[0]] else [];
      CreatedAtAppend(a[1..], b, t);
      assert (a + b)[0] == a[0];
      assert (a + b)[1..] == a[1..] + b;
      assert CreatedAt(a + b, t) == head + CreatedAt(a[1..] + b, t);
      assert CreatedAt(a, t) == head + CreatedAt(a[1..], t);
    }
  }

  lemma {:induction false} InsertByTimeKeepsOrder(p: Post, ps: seq<Post>)
    requires NewestFirst(ps)
    ensures NewestFirst(InsertByTime(p, ps))
    ensures |InsertByTime(p, ps)| == |ps| + 1
    ensures InsertByTime(p, ps)[0] == p || (ps != [] && InsertByTime(p, ps)[0] == ps[0])
    decreases |ps|
  {
    if ps != [] && ps[0].createdAt > p.createdAt {
      InsertByTimeKeepsOrder(p, ps[1..]);
      var r := InsertByTime(p, ps[1..]);
      assert InsertByTime(p, ps) == [ps[0]] + r;
      assert ps[1..] != [] ==> ps[0].createdAt >= ps[1].createdAt;
    }
  }

  lemma {:induction false} InsertByTimePermutes(p: Post, ps: seq<Post>)
    ensures multiset(InsertByTime(p, ps)) == multiset(ps) + multiset{p}
    decreases |ps|
  {
    if ps != [] && ps[0].createdAt > p.createdAt {
      InsertByTimePermutes(p, ps[1..]);
      assert ps == [ps[0]] + ps[1..];
    }
  }

  /** Inserting `p` puts it in front of every post created at the same
      time: only strictly newer posts are passed over. */
  lemma {:induction false} InsertByTimeCreatedAt(p: Post, ps: seq<Post>, t: Instant)
    ensures CreatedAt(InsertByTime(p, ps), t) == (if p.createdAt == t then [p] else []) + CreatedAt(ps, t)
    decreases |ps|
  {
    if ps == [] || ps[0].createdAt <= p.createdAt {
      CreatedAtAppend([p], ps, t);
    } else {
      InsertByTimeCreatedAt(p, ps[1..], t);
      CreatedAtAppend([ps[0]], InsertByTime(p, ps[1..]), t);
      CreatedAtAppend([ps[0]], ps[1..], t);
      assert ps == [ps[0]] + ps[1..];
    }
  }

  /** The listing of the store is a permutation of the stored posts,
      newest first, and for every creation time the posts that share it
      keep their insertion order (the sort is stable). */
  lemma {:induction false} SortNewestFirstCorrect(ps: seq<Post>)
    ensures NewestFirst(SortNewestFirst(ps))
    ensures multiset(SortNewestFirst(ps)) == multiset(ps)
    ensures forall t :: CreatedAt(SortNewestFirst(ps), t) == CreatedAt(ps, t)
    decreases |ps|
  {
    if ps != [] {
      SortNewestFirstCorrect(ps[1..]);
      InsertByTimeKeepsOrder(ps[0], SortNewestFirst(ps[1..]));
      InsertByTimePermutes(ps[0], SortNewestFirst(ps[1..]));
      assert ps == [ps[0]] + ps[1..];
      forall t ensures CreatedAt(SortNewestFirst(ps), t) == CreatedAt(ps, t) {
        InsertByTimeCreatedAt(ps[0], SortNewestFirst(ps[1..]), t);
        CreatedAtAppend([ps[0]], ps[1..], t);
      }
    }
  }

  /** How the database query of the list handler ends: the rows it returned
      (`results` may be missing) or the error it threw. */
  datatype QueryOutcome = Rows(results: Option<seq<Post>>) | QueryThrew(message: ErrorMessage)

  /** A query error that means the `posts` table has not been created yet. */
  predicate IsMissingTable(message: ErrorMessage) {
    message.Some? && (Contains(message.value, "no such table") || Contains(message.value, "does not exist"))
  }

  /** The list handler (`GET`). */
  function ListResponse(runtime: Option<Runtime>, nodeEnv: Option<string>, query: QueryOutcome,
                        stored: seq<Post>): Response
  {
    if DbOf(runtime).Some? then
      match query
      case Rows(results) => Response(200, PostListJson(if results.Some? then results.value else []), None)
      case QueryThrew(m) =>
        if IsMissingTable(m) then Response(200, PostListJson([]), None)
        else ServerError(FetchFailed, nodeEnv, m)
    else
      Response(200, PostListJson(SortNewestFirst(stored)), None)
  }

  /** Without a database binding the listing is the store, sorted newest
      first, stably, as a permutation; an empty store lists as empty. */
  lemma FallbackListing(runtime: Option<Runtime>, nodeEnv: Option<string>, query: QueryOutcome, stored: seq<Post>)
    requires DbOf(runtime).None?
    ensures var r := ListResponse(runtime, nodeEnv, query, stored);
            && r.status == 200 && r.body.PostListJson? && r.setCookie.None?
            && NewestFirst(r.body.posts)
            && multiset(r.body.posts) == multiset(stored)
            && (forall t :: CreatedAt(r.body.posts, t) == CreatedAt(stored, t))
            && (stored == [] ==> r.body.posts == [])
  {
    SortNewestFirstCorrect(stored);
  }

  /** A query error whose message mentions "no such table" or "does not
      exist" lists as empty; any other error is a 500 "Failed to fetch
      posts". */
  lemma ListErrorClassification(runtime: Option<Runtime>, nodeEnv: Option<string>, m: ErrorMessage, stored: seq<Post>)
    requires DbOf(runtime).Some?
    ensures var r := ListResponse(runtime, nodeEnv, QueryThrew(m), stored);
            var missing := m.Some? && ((exists i :: OccursAt(m.value, "no such table", i))
                                       || (exists i :: OccursAt(m.value, "does not exist", i)));
            && (missing ==> r == Response(200, PostListJson([]), None))
            && (!missing ==> r.status == 500 && r.body == ErrorJson(FetchFailed, r.body.details))
  {
  }

  // ---------------------------------------------------------------------
  // Creating: the decision pipeline
  // ---------------------------------------------------------------------

  /** How the database insert of the create handler ends: the row read back
      after the insert, an insert reporting no success, no row read back,
      or an error thrown. */
  datatype InsertOutcome =
    | Inserted(row: Post)
    | InsertUnsuccessful
    | RowMissing
    | InsertThrew(message: ErrorMessage)

  /** The message of the error the database path throws when no row comes
      back. */
  function InsertError(insert: InsertOutcome): ErrorMessage
    requires !insert.Inserted?
  {
    match insert
    case InsertUnsuccessful => Some("Failed to insert post into database")
    case RowMissing => Some("Failed to retrieve created post from database")
    case InsertThrew(m) => m
  }

  /** The create handler's answer on the database path. */
  function InsertResponse(insert: InsertOutcome, nodeEnv: Option<string>): Response {
    if insert.Inserted? then Response(201, PostJson(insert.row), None)
    else ServerError(CreateFailed, nodeEnv, InsertError(insert))
  }

  /** What the create handler does: answer without touching the store, or
      append a post to the store and answer 201 with it. */
  datatype CreateDecision = Reply(response: Response) | Append(post: Post)

  /** The create pipeline: cookie check, form read, required fields, image
      reference, then the database insert or an append to the store with
      the next id. */
  function DecideCreate(req: CreateRequest, runtime: Option<Runtime>, nodeEnv: Option<string>, now: Instant,
                        nowMs: nat, put: PutOutcome, insert: InsertOutcome, nextId: nat): CreateDecision
  {
    if !Authorized(req.authCookie) then Reply(Unauthorized)
    else
      match req.form
      case Failure(m) => Reply(ServerError(CreateFailed, nodeEnv, m))
      case Success(form) =>
        if !HasRequiredFields(form) then Reply(MissingFields)
        else
          match ImageReference(form.image, StorageOf(runtime), req.origin, nowMs, put)
          case Failure(m) => Reply(ServerError(CreateFailed, nodeEnv, m))
          case Success(imageUrl) =>
            if DbOf(runtime).Some? then Reply(InsertResponse(insert, nodeEnv))
            else Append(Post(nextId, form.title.value, form.content.value, now, now, imageUrl))
  }

  /** Without the exact session cookie the answer is 401, whatever the
      form holds or whether it can be read at all, and nothing is stored. */
  lemma CreateRejectsUnauthorized(req: CreateRequest, runtime: Option<Runtime>, nodeEnv: Option<string>,
                                  now: Instant, nowMs: nat, put: PutOutcome, insert: InsertOutcome, nextId: nat)
    requires req.authCookie != Some("authenticated")
    ensures DecideCreate(req, runtime, nodeEnv, now, nowMs, put, insert, nextId)
            == Reply(Response(401, ErrorJson("Unauthorized", None), None))
  {
  }

  /** A missing or empty title or content is a 400 and nothing is stored;
      a whitespace-only one is accepted. */
  lemma CreateRequiresFields(req: CreateRequest, runtime: Option<Runtime>, nodeEnv: Option<string>,
                             now: Instant, nowMs: nat, put: PutOutcome, insert: InsertOutcome, nextId: nat)
    requires Authorized(req.authCookie) && req.form.Success?
    ensures var f := req.form.value;
            (f.title in {None, Some("")} || f.content in {None, Some("")}) <==>
              DecideCreate(req, runtime, nodeEnv, now, nowMs, put, insert, nextId)
              == Reply(Response(400, ErrorJson("Title and content are required", None), None))
  {
  }

  /** The image is stored before the post: when its upload fails the answer
      is a 500 and no post is written. */
  lemma CreateNeedsImageFirst(req: CreateRequest, runtime: Option<Runtime>, nodeEnv: Option<string>,
                              now: Instant, nowMs: nat, m: ErrorMessage, insert: InsertOutcome, nextId: nat)
    requires Authorized(req.authCookie) && req.form.Success? && HasRequiredFields(req.form.value)
    requires req.form.value.image.Some? && |req.form.value.image.value.bytes| > 0
    requires StorageOf(runtime).Some?
    ensures DecideCreate(req, runtime, nodeEnv, now, nowMs, PutThrew(m), insert, nextId)
            == Reply(ServerError(CreateFailed, nodeEnv, m))
  {
  }

  /** Without a database, a valid authorised request appends a post with
      the next id, the given title and content, both timestamps `now`, and
      the image reference of its upload. */
  lemma CreateAppendsToStore(req: CreateRequest, runtime: Option<Runtime>, nodeEnv: Option<string>,
                             now: Instant, nowMs: nat, put: PutOutcome, insert: InsertOutcome, nextId: nat)
    requires Authorized(req.authCookie) && req.form.Success? && HasRequiredFields(req.form.value)
    requires DbOf(runtime).None?
    requires ImageReference(req.form.value.image, StorageOf(runtime), req.origin, nowMs, put).Success?
    ensures var f := req.form.value;
            var d := DecideCreate(req, runtime, nodeEnv, now, nowMs, put, insert, nextId);
            && d.Append?
            && d.post.id == nextId
            && Some(d.post.title) == f.title && Some(d.post.content) == f.content
            && d.post.createdAt == now && d.post.updatedAt == now
            && d.post.imageUrl == ImageReference(f.image, StorageOf(runtime), req.origin, nowMs, put).value
  {
  }

  /** Every 500 either handler answers comes from a caught error: it carries
      the handler's fixed error text and no cookie, and its details are the
      caught error's message when NODE_ENV is "development" and are left
      out otherwise. */
  lemma ErrorDetailsOnlyInDevelopment(runtime: Option<Runtime>, nodeEnv: Option<string>, query: QueryOutcome,
                                      stored: seq<Post>, req: CreateRequest, now: Instant, nowMs: nat,
                                      put: PutOutcome, insert: InsertOutcome, nextId: nat)
    ensures var r := ListResponse(runtime, nodeEnv, query, stored);
            r.status == 500 ==>
              && query.QueryThrew? && r.setCookie.None?
              && r.body == ErrorJson("Failed to fetch posts",
                                     if nodeEnv == Some("development") then query.message else None)
    ensures var d := DecideCreate(req, runtime, nodeEnv, now, nowMs, put, insert, nextId);
            d.Reply? && d.response.status == 500 ==>
              var thrown := if req.form.Failure? then req.form.error
                            else if ImageReference(req.form.value.image, StorageOf(runtime), req.origin, nowMs, put).Failure?
                            then put.message
                            else InsertError(insert);
              && d.response.setCookie.None?
              && d.response.body == ErrorJson("Failed to create post",
                                              if nodeEnv == Some("development") then thrown else None)
  {
  }

  // ---------------------------------------------------------------------
  // The fallback store
  // ---------------------------------------------------------------------

  /** The ids of the store are 1, 2, ..., n in insertion order. */
  predicate IdsSequential(ps: seq<Post>) {
    forall i :: 0 <= i < |ps| ==> ps[i].id == i + 1
  }

  /** Sequential ids are pairwise distinct, positive and all below the next
      id. */
  lemma SequentialIdsDistinct(ps: seq<Post>)
    requires IdsSequential(ps)
    ensures forall i, j :: 0 <= i < j < |ps| ==> ps[i].id != ps[j].id
    ensures forall i :: 0 <= i < |ps| ==> 1 <= ps[i].id < |ps| + 1
  {
  }

  /** Appending a post whose id is the next id keeps the ids sequential. */
  lemma AppendKeepsIdsSequential(ps: seq<Post>, p: Post)
    requires IdsSequential(ps) && p.id == |ps| + 1
    ensures IdsSequential(ps + [p])
  {
  }

  class Store {
    /** `globalThis.__posts`, in insertion order. */
    var posts: seq<Post>
    /** `globalThis.__nextId`. */
    var nextId: nat

    ghost predicate Valid()
      reads this
    {
      IdsSequential(posts) && nextId == |posts| + 1
    }

    /** The store as the module's first load leaves it. */
    constructor ()
      ensures Valid()
      ensures posts == [] && nextId == 1
    {
      posts := [];
      nextId := 1;
    }

    /** The create handler (`POST`). Every answer other than an append
        leaves the store and the counter as they were; an append adds the
        new post at the end, leaves every earlier post alone and bumps the
        counter by one. */
    method Create(req: CreateRequest, ctx: Context, now: Instant, nowMs: nat, put: PutOutcome,
                  insert: InsertOutcome) returns (resp: Response)
      requires Valid()
      modifies this
      ensures Valid()
      ensures match DecideCreate(req, Located(ctx), ctx.processEnv.nodeEnv, now, nowMs, put, insert, old(nextId))
              case Reply(r) => resp == r && posts == old(posts) && nextId == old(nextId)
              case Append(p) =>
                && p.id == old(nextId)
                && resp == Response(201, PostJson(p), None)
                && posts == old(posts) + [p]
                && nextId == old(nextId) + 1
    {
      var nodeEnv := ctx.processEnv.nodeEnv;
      if !Authorized(req.authCookie) {
        return Unauthorized;
      }
      if req.form.Failure? {
        return ServerError(CreateFailed, nodeEnv, req.form.error);
      }
      var form := req.form.value;
      if !HasRequiredFields(form) {
        return MissingFields;
      }
      var runtime := GetCloudflareRuntime(ctx);
      var imageUrl := ImageReference(form.image, StorageOf(runtime), req.origin, nowMs, put);
      if imageUrl.Failure? {
        return ServerError(CreateFailed, nodeEnv, imageUrl.error);
      }
      if DbOf(runtime).Some? {
        return InsertResponse(insert, nodeEnv);
      }
      var currentId := nextId;
      var newPost := Post(currentId, form.title.value, form.content.value, now, now, imageUrl.value);
      AppendKeepsIdsSequential(posts, newPost);
      posts := posts + [newPost];
      nextId := currentId + 1;
      resp := Response(201, PostJson(newPost), None);
    }

    /** The list handler (`GET`): it sorts a copy, so the store is left
        untouched. */
    method List(ctx: Context, query: QueryOutcome) returns (resp: Response)
      ensures resp == ListResponse(Located(ctx), ctx.processEnv.nodeEnv, query, posts)
    {
      var runtime := GetCloudflareRuntime(ctx);
      resp := ListResponse(runtime, ctx.processEnv.nodeEnv, query, posts);
    }
  }
}
