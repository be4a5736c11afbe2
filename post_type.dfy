/**
 * The `PostType` adapter: an object bound to one post of one custom post type.
 * Building one either registers the type with the host (when the host does not
 * know it yet) or binds the object to a post and checks that post's type;
 * attributes are looked up across ACF, post meta and the native `WP_Post`
 * fields; `get` runs a normalised `get_posts` query and wraps each post found.
 */
module PostTypes {
  import opened Php
  import opened WordPress
  import opened PostTypeName

  /**
   * The concrete subclass an object belongs to: its name as `get_called_class()`
   * reports it, and the registration arguments its `setPostTypeArgs` installs.
   */
  datatype Subclass = Subclass(name: string, postTypeArgs: Args)

  /** The host functions `__get` consults, in the order it may consult them. */
  datatype Source = Acf | PostMeta | PostField

  function Rank(s: Source): nat {
    match s
    case Acf => 0
    case PostMeta => 1
    case PostField => 2
  }

  /** The second sentence of the message `__get` throws, appended with no space after the first. */
  const PropertyHint: string :=
    "Property must be a WP_Post property, a valid meta_key or an ACF_Field name if ACF is installed"

  /** The message of the exception `__get` throws. */
  function MissingPropertyMessage(name: string, className: string): (m: string)
    ensures Contains(m, name) && Contains(m, className)
  {
    var tail := "." + PropertyHint;
    ContainsInfix("Cannot get ", name, " in " + className + tail);
    ContainsInfix("Cannot get " + name + " in ", className, tail);
    assert "Cannot get " + name + " in " + className + tail
        == "Cannot get " + name + (" in " + className + tail);
    "Cannot get " + name + " in " + className + tail
  }

  /** The message of the exception `init` throws. */
  function MissingPostMessage(postType: string, escapedId: string): (m: string)
    ensures Contains(m, postType) && Contains(m, escapedId)
  {
    ContainsInfix("Warning: ", postType, " ID: " + escapedId + " does not exist!");
    ContainsInfix("Warning: " + postType + " ID: ", escapedId, " does not exist!");
    assert "Warning: " + postType + " ID: " + escapedId + " does not exist!"
        == "Warning: " + postType + (" ID: " + escapedId + " does not exist!");
    "Warning: " + postType + " ID: " + escapedId + " does not exist!"
  }

  /** The post an object is bound to: the explicit `$id` when it is truthy, otherwise the global post's. */
  function ResolvedId(id: Value, currentPostId: Value): Value {
    if Truthy(id) then id else currentPostId
  }

  /** `init` rejects a bound post whose type, as the host reports it, is not the derived identifier. */
  predicate Rejects(host: Host, className: string, id: Value) {
    Truthy(id) && host.postTypeOf(id) != Str(PostTypeOf(className))
  }

  /** The registration hook the constructor adds for one object. */
  function Registration(obj: PostType): Action {
    Action("init", obj, "registerPostType")
  }

  function Registrations(objs: seq<PostType>): seq<Action> {
    seq(|objs|, k requires 0 <= k < |objs| => Registration(objs[k]))
  }

  lemma RegistrationsSnoc(objs: seq<PostType>, obj: PostType)
    ensures Registrations(objs + [obj]) == Registrations(objs) + [Registration(obj)]
  {
    assert forall k :: 0 <= k < |objs| ==> (objs + [obj])[k] == objs[k];
  }

  /**
   * The `get_posts` arguments `get` sends: `post_type` always the derived
   * identifier, `orderby` defaulting to `menu_order` when it is not set, every
   * other key as the caller gave it.
   */
  function NormalizedArgs(args: Args, postType: string): (r: Args)
    ensures r.Keys == args.Keys + {"post_type", "orderby"}
    ensures r["post_type"] == Str(postType)
    ensures r["orderby"] == if IsSet(args, "orderby") then args["orderby"] else Str("menu_order")
    ensures forall key :: key in args && key != "post_type" && key != "orderby" ==> r[key] == args[key]
  {
    var a := args["post_type" := Str(postType)];
    if IsSet(a, "orderby") then a else a["orderby" := Str("menu_order")]
  }

  /**
   * `obj` is what the constructor leaves for post `id`: bound to that post (or
   * the global one) when the type is registered, otherwise unbound and holding
   * the subclass's registration arguments.
   */
  predicate Wraps(obj: PostType, sub: Subclass, registered: bool, id: Value, currentPostId: Value)
    reads obj
  {
    obj.subclass == sub &&
    if registered then obj.ID == ResolvedId(id, currentPostId) && obj.args == None
    else obj.ID == Null && obj.args == Some(sub.postTypeArgs)
  }

  /** Post `k` is the first of `posts` that `init` rejects. */
  predicate FirstRejected(host: Host, className: string, posts: seq<Value>, currentPostId: Value, k: nat)
    requires k < |posts|
  {
    Rejects(host, className, ResolvedId(posts[k], currentPostId)) &&
    forall j :: 0 <= j < k ==> !Rejects(host, className, ResolvedId(posts[j], currentPostId))
  }

  /**
   * The outcome of wrapping `posts`: either one distinct object per post,
   * in order, each as the constructor leaves it; or the exception of the first
   * post `init` rejects, which happens exactly when the type is registered and
   * some post is rejected.
   */
  predicate WrapsAll(r: Result<seq<PostType>>, sub: Subclass, posts: seq<Value>, host: Host, currentPostId: Value)
    reads if r.Ok? then set k | 0 <= k < |r.value| :: r.value[k] else {}
  {
    var registered := host.postTypeExists(PostTypeOf(sub.name));
    (r.Ok? ==>
      |r.value| == |posts| &&
      (forall j, k :: 0 <= j < k < |posts| ==> r.value[j] != r.value[k]) &&
      forall k :: 0 <= k < |posts| ==>
        Wraps(r.value[k], sub, registered, posts[k], currentPostId)) &&
    (r.Err? <==>
      registered && exists k :: 0 <= k < |posts| && Rejects(host, sub.name, ResolvedId(posts[k], currentPostId))) &&
    (r.Err? ==>
      exists k :: 0 <= k < |posts| && FirstRejected(host, sub.name, posts, currentPostId, k) &&
        r.error == Exception(MissingPostMessage(PostTypeOf(sub.name), host.escAttr(ResolvedId(posts[k], currentPostId)))))
  }

  class PostType {
    /** The subclass that was instantiated (PHP's late static binding). */
    const subclass: Subclass
    /** `$this->ID`; `null` until the constructor sets it. */
    var ID: Value
    /** `$this->args`; unset until `setPostTypeArgs` runs. */
    var args: Option<Args>

    /** Allocation: both properties unset. */
    constructor (subclass: Subclass)
      ensures this.subclass == subclass && ID == Null && args == None
    {
      this.subclass := subclass;
      ID := Null;
      args := None;
    }

    /** The subclass's `setPostTypeArgs`: installs its registration arguments. */
    method SetPostTypeArgs()
      modifies this
      ensures args == Some(subclass.postTypeArgs) && ID == old(ID)
    {
      args := Some(subclass.postTypeArgs);
    }

    /** `setupPostType`: hooks `registerPostType` on this object to the host's `init` action. */
    method SetupPostType(registry: ActionRegistry)
      modifies registry
      ensures registry.actions == old(registry.actions) + [Registration(this)]
    {
      registry.AddAction("init", this, "registerPostType");
    }

    /**
     * `init`: throws exactly when `ID` is truthy and the host's type for that
     * post is not the derived identifier; a falsy `ID` skips the check.
     */
    method Init(host: Host) returns (thrown: Option<Exception>)
      ensures thrown.Some? <==> Truthy(ID) && host.postTypeOf(ID) != Str(PostTypeOf(subclass.name))
      ensures thrown.Some? ==>
        thrown.value == Exception(MissingPostMessage(PostTypeOf(subclass.name), host.escAttr(ID)))
    {
      thrown := None;
      if !Truthy(ID) {
        return;
      }
      var postType := GetPostType(subclass.name);
      if host.postTypeOf(ID) != Str(postType) {
        thrown := Some(Exception(MissingPostMessage(postType, host.escAttr(ID))));
      }
    }

    /**
     * `__construct($id)`, with the global `$post`'s `ID` passed in as
     * `currentPostId` and a thrown exception as `Err`.
     */
    static method Create(sub: Subclass, id: Value, host: Host, currentPostId: Value, registry: ActionRegistry)
      returns (r: Result<PostType>)
      modifies registry
      ensures r.Ok? ==> fresh(r.value) && Wraps(r.value, sub, host.postTypeExists(PostTypeOf(sub.name)), id, currentPostId)
      ensures !host.postTypeExists(PostTypeOf(sub.name)) ==>
        r.Ok? && registry.actions == old(registry.actions) + [Registration(r.value)]
      ensures host.postTypeExists(PostTypeOf(sub.name)) ==>
        registry.actions == old(registry.actions) &&
        (r.Err? <==> Rejects(host, sub.name, ResolvedId(id, currentPostId))) &&
        (r.Err? ==> r.error == Exception(MissingPostMessage(PostTypeOf(sub.name), host.escAttr(ResolvedId(id, currentPostId)))))
    {
      var obj := new PostType(sub);
      var ptype := GetPostType(sub.name);
      if !host.postTypeExists(ptype) {
        obj.SetPostTypeArgs();
        obj.SetupPostType(registry);
        r := Ok(obj);
        return;
      } else if Truthy(id) {
        obj.ID := id;
      } else {
        obj.ID := currentPostId;
      }
      var thrown := obj.Init(host);
      if thrown.Some? {
        r := Err(thrown.value);
      } else {
        r := Ok(obj);
      }
    }

    /**
     * `__get($name)` as written. `consulted` records which lookups run, in
     * order. The value in `$r` is never returned: contrary to the doc comment
     * on `__get`, a non-empty ACF or post-meta value ends in the exception, and
     * the only value returned is a native `WP_Post` field that `isset` accepts
     * after both other lookups came back empty.
     */
    method GetProperty(name: string, host: Host) returns (r: Result<Value>, ghost consulted: seq<Source>)
      ensures Acf in consulted <==> host.hasGetField
      ensures PostMeta in consulted <==> !host.hasGetField || IsEmpty(host.getField(name, ID))
      ensures PostField in consulted <==> PostMeta in consulted && IsEmpty(host.getPostMeta(ID, name))
      ensures forall i, j :: 0 <= i < j < |consulted| ==> Rank(consulted[i]) < Rank(consulted[j])
      ensures r.Ok? <==> PostField in consulted && host.getPost(ID).Some? && IsSet(host.getPost(ID).value, name)
      ensures r.Ok? ==> r.value == host.getPost(ID).value[name]
      ensures r.Err? ==> r.error == Exception(MissingPropertyMessage(name, subclass.name))
    {
      var post := host.getPost(ID);
      consulted := [];
      var v := Null;
      if host.hasGetField {
        v := host.getField(name, ID);
        consulted := consulted + [Acf];
      }
      if IsEmpty(v) {
        v := host.getPostMeta(ID, name);
        consulted := consulted + [PostMeta];
      }
      if IsEmpty(v) {
        consulted := consulted + [PostField];
        if post.Some? && IsSet(post.value, name) {
          r := Ok(post.value[name]);
          return;
        }
      }
      r := Err(Exception(MissingPropertyMessage(name, subclass.name)));
    }

    /**
     * `__get($name)` as its doc comment means it: a value found in ACF or post
     * meta is returned. The precedence is the order of the `empty($r)` tests in
     * the code: the first non-empty of the ACF value (when ACF is installed) and
     * the post-meta value, otherwise the native field when `isset` accepts it,
     * otherwise the exception.
     */
    method GetAsDocumented(name: string, host: Host) returns (r: Result<Value>)
      ensures host.hasGetField && !IsEmpty(host.getField(name, ID)) ==> r == Ok(host.getField(name, ID))
      ensures (!host.hasGetField || IsEmpty(host.getField(name, ID))) && !IsEmpty(host.getPostMeta(ID, name)) ==>
        r == Ok(host.getPostMeta(ID, name))
      ensures (!host.hasGetField || IsEmpty(host.getField(name, ID))) && IsEmpty(host.getPostMeta(ID, name)) ==>
        (r.Ok? <==> host.getPost(ID).Some? && IsSet(host.getPost(ID).value, name)) &&
        (r.Ok? ==> r.value == host.getPost(ID).value[name])
      ensures r.Err? ==> r.error == Exception(MissingPropertyMessage(name, subclass.name))
    {
      var post := host.getPost(ID);
      var v := Null;
      if host.hasGetField {
        v := host.getField(name, ID);
      }
      if IsEmpty(v) {
        v := host.getPostMeta(ID, name);
      }
      if !IsEmpty(v) {
        r := Ok(v);
      } else if post.Some? && IsSet(post.value, name) {
        r := Ok(post.value[name]);
      } else {
        r := Err(Exception(MissingPropertyMessage(name, subclass.name)));
      }
    }

    /**
     * `PostType::get($args)`: queries the host with the normalised arguments and
     * wraps the posts found.
     */
    static method Get(sub: Subclass, args: Args, host: Host, currentPostId: Value, registry: ActionRegistry)
      returns (r: Result<seq<PostType>>)
      modifies registry
      ensures r.Ok? ==> forall k :: 0 <= k < |r.value| ==> fresh(r.value[k])
      ensures WrapsAll(r, sub, host.getPosts(NormalizedArgs(args, PostTypeOf(sub.name))), host, currentPostId)
      ensures host.postTypeExists(PostTypeOf(sub.name)) ==> registry.actions == old(registry.actions)
      ensures !host.postTypeExists(PostTypeOf(sub.name)) ==>
        r.Ok? && registry.actions == old(registry.actions) + Registrations(r.value)
    {
      var postType := GetPostType(sub.name);
      var query := args;
      query := query["post_type" := Str(postType)];
      if !IsSet(query, "orderby") {
        query := query["orderby" := Str("menu_order")];
      }
      assert query == NormalizedArgs(args, postType);
      var postsArray := host.getPosts(query);
      r := Wrap(sub, postsArray, host, currentPostId, registry);
    }

    /**
     * The loop of `get`: one object per post, in order, built from that post's
     * `ID`; the first construction that throws ends the loop with its exception.
     */
    static method Wrap(sub: Subclass, posts: seq<Value>, host: Host, currentPostId: Value, registry: ActionRegistry)
      returns (r: Result<seq<PostType>>)
      modifies registry
      ensures r.Ok? ==> forall k :: 0 <= k < |r.value| ==> fresh(r.value[k])
      ensures WrapsAll(r, sub, posts, host, currentPostId)
      ensures host.postTypeExists(PostTypeOf(sub.name)) ==> registry.actions == old(registry.actions)
      ensures !host.postTypeExists(PostTypeOf(sub.name)) ==>
        r.Ok? && registry.actions == old(registry.actions) + Registrations(r.value)
    {
      var registered := host.postTypeExists(PostTypeOf(sub.name));
      var objects: seq<PostType> := [];
      for i := 0 to |posts|
        invariant |objects| == i
        invariant forall j, k :: 0 <= j < k < i ==> objects[j] != objects[k]
        invariant forall k :: 0 <= k < i ==>
          fresh(objects[k]) && Wraps(objects[k], sub, registered, posts[k], currentPostId)
        invariant registered ==> forall k :: 0 <= k < i ==> !Rejects(host, sub.name, ResolvedId(posts[k], currentPostId))
        invariant registered ==> registry.actions == old(registry.actions)
        invariant !registered ==> registry.actions == old(registry.actions) + Registrations(objects)
      {
        var created := Create(sub, posts[i], host, currentPostId, registry);
        if created.Err? {
          assert FirstRejected(host, sub.name, posts, currentPostId, i);
          r := Err(created.error);
          return;
        }
        RegistrationsSnoc(objects, created.value);
        objects := objects + [created.value];
      }
      r := Ok(objects);
    }
  }

  /**
   * A post whose ACF field holds a value: `__get` as written throws, while the
   * documented lookup returns the ACF value.
   */
  method AcfValueIsDiscarded() returns (asWritten: Result<Value>, documented: Result<Value>)
    ensures asWritten.Err? && documented == Ok(Str("Lead story"))
  {
    var host := Host(
      (t: string) => true,
      (id: Value) => Str("news-article"),
      true,
      (name: string, id: Value) => Str("Lead story"),
      (id: Value, key: string) => Str(""),
      (id: Value) => Some(map[]),
      (a: Args) => [],
      (v: Value) => "7");
    var article := new PostType(Subclass("NewsArticle", map[]));
    article.ID := Int(7);
    ghost var consulted;
    asWritten, consulted := article.GetProperty("headline", host);
    documented := article.GetAsDocumented("headline", host);
  }
}
