/** Locating the platform bindings (`getCloudflareRuntime` in the posts
    route): the relational database handle `DB` and the blob store handle
    `STORAGE` are each taken from the first of four places that has a
    truthy value, in the order process.env, the request's env,
    globalThis.ENV, globalThis.__CF_RUNTIME.env. */
module Bindings {
  import opened Common

  /** An opaque binding object (a D1 database or an R2 bucket). */
  datatype Handle = Handle(name: string)

  /** An environment object as the handlers read it. A missing or falsy
      property is `None`. */
  datatype EnvObject = EnvObject(
    db: Option<Handle>,
    storage: Option<Handle>,
    adminPassword: Option<string>,
    nodeEnv: Option<string>)

  /** The value of globalThis.__CF_RUNTIME. */
  datatype CfRuntime = CfRuntime(env: Option<EnvObject>)

  /** Everything a request handler can see: the process environment (an
      empty object when `process` is undefined), the injected globals, and
      the request's own `env` and `cf.env` properties. */
  datatype Context = Context(
    processEnv: EnvObject,
    globalEnv: Option<EnvObject>,          // globalThis.ENV
    cfRuntime: Option<CfRuntime>,          // globalThis.__CF_RUNTIME
    globalAdminPassword: Option<string>,   // globalThis.ADMIN_PASSWORD
    requestEnv: Option<EnvObject>,         // request.env
    requestCfEnv: Option<EnvObject>)       // request.cf?.env

  /** The object `getCloudflareRuntime` returns when it returns one: each
      property is present only when its binding was found. */
  datatype Runtime = Runtime(db: Option<Handle>, storage: Option<Handle>)

  /** `request.env || request.cf?.env`: the request's env object when it
      has one, whatever it holds; its `cf.env` only otherwise. */
  function RequestEnv(ctx: Context): Option<EnvObject> {
    if ctx.requestEnv.Some? then ctx.requestEnv else ctx.requestCfEnv
  }

  /** `cfRuntime.env`, when `cfRuntime` is set. */
  function CfEnv(ctx: Context): Option<EnvObject> {
    match ctx.cfRuntime
    case None => None
    case Some(rt) => rt.env
  }

  function DbIn(env: Option<EnvObject>): Option<Handle> {
    if env.Some? then env.value.db else None
  }

  function StorageIn(env: Option<EnvObject>): Option<Handle> {
    if env.Some? then env.value.storage else None
  }

  /** The places `DB` is looked up, in the order they are tried. */
  function DbCandidates(ctx: Context): seq<Option<Handle>> {
    [ctx.processEnv.db, DbIn(RequestEnv(ctx)), DbIn(ctx.globalEnv), DbIn(CfEnv(ctx))]
  }

  /** The places `STORAGE` is looked up, in the same order. */
  function StorageCandidates(ctx: Context): seq<Option<Handle>> {
    [ctx.processEnv.storage, StorageIn(RequestEnv(ctx)), StorageIn(ctx.globalEnv), StorageIn(CfEnv(ctx))]
  }

  /** What `getCloudflareRuntime` returns: `null` when neither binding is
      found, otherwise an object holding exactly the bindings found, each
      the first one present in its own candidate order. */
  function Located(ctx: Context): Option<Runtime> {
    var db := FirstSome(DbCandidates(ctx));
    var storage := FirstSome(StorageCandidates(ctx));
    if db.None? && storage.None? then None else Some(Runtime(db, storage))
  }

  function DbOf(rt: Option<Runtime>): Option<Handle> {
    if rt.Some? then rt.value.db else None
  }

  function StorageOf(rt: Option<Runtime>): Option<Handle> {
    if rt.Some? then rt.value.storage else None
  }

  /** The probe sequence of `getCloudflareRuntime`, updating `db` and
      `storage` place by place. */
  method GetCloudflareRuntime(ctx: Context) returns (r: Option<Runtime>)
    ensures r == Located(ctx)
  {
    var env := ctx.processEnv;
    var globalEnv := ctx.globalEnv;
    var cfRuntime := ctx.cfRuntime;
    var requestEnv := if ctx.requestEnv.Some? then ctx.requestEnv else ctx.requestCfEnv;

    var db := env.db;
    var storage := env.storage;

    if requestEnv.Some? {
      if db.None? && requestEnv.value.db.Some? { db := requestEnv.value.db; }
      if storage.None? && requestEnv.value.storage.Some? { storage := requestEnv.value.storage; }
    }

    if db.None? && globalEnv.Some? && globalEnv.value.db.Some? {
      db := globalEnv.value.db;
    }
    if storage.None? && globalEnv.Some? && globalEnv.value.storage.Some? {
      storage := globalEnv.value.storage;
    }

    if cfRuntime.Some? {
      var cfEnv := cfRuntime.value.env;
      if db.None? && cfEnv.Some? && cfEnv.value.db.Some? { db := cfEnv.value.db; }
      if storage.None? && cfEnv.Some? && cfEnv.value.storage.Some? { storage := cfEnv.value.storage; }
    }

    FirstSomeOfFour(env.db, DbIn(requestEnv), DbIn(globalEnv), DbIn(CfEnv(ctx)));
    FirstSomeOfFour(env.storage, StorageIn(requestEnv), StorageIn(globalEnv), StorageIn(CfEnv(ctx)));
    if db.Some? || storage.Some? {
      r := Some(Runtime(db, storage));
    } else {
      r := None;
    }
  }

  /** `null` is returned exactly when no place holds either binding. */
  lemma LocatedNullIff(ctx: Context)
    ensures Located(ctx).None? <==>
              (forall i :: 0 <= i < 4 ==> DbCandidates(ctx)[i].None? && StorageCandidates(ctx)[i].None?)
  {
  }

  /** Each binding is the first present one of its candidates: every place
      tried before the one it came from lacks it. */
  lemma LocatedFirstFound(ctx: Context)
    ensures DbOf(Located(ctx)).Some? ==>
              exists i :: 0 <= i < 4 && DbCandidates(ctx)[i] == DbOf(Located(ctx))
                          && forall j :: 0 <= j < i ==> DbCandidates(ctx)[j].None?
    ensures StorageOf(Located(ctx)).Some? ==>
              exists i :: 0 <= i < 4 && StorageCandidates(ctx)[i] == StorageOf(Located(ctx))
                          && forall j :: 0 <= j < i ==> StorageCandidates(ctx)[j].None?
    ensures DbOf(Located(ctx)).None? <==> forall i :: 0 <= i < 4 ==> DbCandidates(ctx)[i].None?
    ensures StorageOf(Located(ctx)).None? <==> forall i :: 0 <= i < 4 ==> StorageCandidates(ctx)[i].None?
  {
  }

  /** The two bindings are resolved independently: what the places hold for
      one never changes which handle is found for the other. */
  lemma LocatedIndependently(ctx1: Context, ctx2: Context)
    ensures DbCandidates(ctx1) == DbCandidates(ctx2) ==> DbOf(Located(ctx1)) == DbOf(Located(ctx2))
    ensures StorageCandidates(ctx1) == StorageCandidates(ctx2) ==>
              StorageOf(Located(ctx1)) == StorageOf(Located(ctx2))
  {
  }

  /** The request's env is tried second, after process.env and before
      globalThis.ENV and the __CF_RUNTIME env. */
  lemma RequestEnvTriedSecond(ctx: Context, h: Handle)
    requires ctx.processEnv.db.None?
    requires DbIn(RequestEnv(ctx)) == Some(h)
    ensures DbOf(Located(ctx)) == Some(h)
  {
    var c := DbCandidates(ctx);
    FirstSomeOfFour(c[0], c[1], c[2], c[3]);
    assert c == [c[0], c[1], c[2], c[3]];
  }

  /** A request `env` object that lacks `DB` hides `request.cf.env`: its
      `DB` is never consulted. */
  lemma RequestEnvHidesCfEnv(ctx: Context, e: EnvObject)
    requires ctx.requestEnv == Some(e) && e.db.None?
    ensures DbCandidates(ctx) == [ctx.processEnv.db, None, DbIn(ctx.globalEnv), DbIn(CfEnv(ctx))]
  {
  }
}
