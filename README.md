# PostType adapter model

`PostType` (PostType.php) is an abstract WordPress class. Each concrete subclass
stands for one custom post type, and each instance is bound to one post of that
type. The class does four things on top of the host's API:

- It derives the post type's identifier from the subclass name (`getPostType`).
  For example, `NewsArticle` becomes `news-article`.
- It builds an object (`__construct` and `init`). If the host does not know the
  type yet, it installs the subclass's registration arguments and hooks
  registration to the host's `init` action. Otherwise it binds the object to the
  given post ID, or to the global post's ID, and checks that post's type.
- It looks up attributes (`__get`) across three sources: ACF, post meta and the
  native `WP_Post` field.
- It queries posts (`get`). It normalises the query arguments, asks the host for
  the posts, and wraps each post found in an object of the subclass.

The project is four modules:

- `Php` (php.dfy): PHP values, `empty()`, truthiness and `isset()`; a thrown
  exception becomes the `Err` of a `Result`.
- `WordPress` (wordpress.dfy): every host function the class calls becomes a
  field of the `Host` record. `add_action`, whose effect the class relies on,
  appends to an `ActionRegistry`.
- `PostTypeName` (post_type_name.dfy): `getPostType`. `PostTypeOf` is the
  specification function. `GetPostType` is the source's loop, proved equal to
  it. The lemmas cover what the identifier looks like: no upper-case letters or
  backslashes, well-placed hyphens, and equality with an independent
  character-by-character kebab-case definition.
- `PostTypes` (post_type.dfy): the `PostType` class. Its fields are `ID` and
  `args`; the subclass is a constant. It models the constructor, `init`,
  `__get` and `get`.

The doc comment of `__get` (PostType.php:36) says properties are retrieved
from the post object, post meta or ACF fields, so a value found in ACF or post
meta is meant to come back. The code returns only the native field, as the
finding below sets out. `GetProperty` follows the code. `GetAsDocumented` is
the corrected lookup. The comment gives no precedence, so its order is taken
from the `empty($r)` tests at PostType.php:43-51: ACF first, then post meta,
then the native field.

The namespace prefix that `getPostType` removes is `__NAMESPACE__ . '\\'`.
PostType.php declares no namespace, so that prefix is a lone backslash and
`str_replace` removes every backslash. A namespaced subclass therefore keeps
its namespace segments in the identifier: `App\NewsArticle` gives
`app-news-article`.

## Model

| member | source | states |
|---|---|---|
| `PostTypeName.LowerChar` | PostType.php:77 | `strtolower` on one character: no upper-case ASCII letter results, letters stay letters, and every other character is unchanged |
| `PostTypeName.Lower` | PostType.php:77 | `strtolower` keeps the string's length |
| `PostTypeName.LowerChars` | PostType.php:77 | a lower-cased string holds no upper-case letter and holds exactly the non-letters of the original |
| `PostTypeName.StripBackslashes` | PostType.php:70 | removing the namespace prefix leaves no backslash and keeps every other character |
| `PostTypeName.SplitBeforeUpper` | PostType.php:71 | the lookahead split always yields at least one piece |
| `PostTypeName.SplitBeforeUpperPieces` | PostType.php:71 | concatenating the split's pieces gives the string back; the first piece holds no upper-case letter; every later piece is one upper-case letter followed by non-upper-case characters |
| `PostTypeName.KeptParts` | PostType.php:72-78 | the loop keeps at most as many parts as the split produced |
| `PostTypeName.KeptPartsSnoc` | PostType.php:73-78 | one turn of the `foreach` appends the lower-cased piece unless `empty()` rejects it |
| `PostTypeName.KeptPartSource` | PostType.php:73-78 | every kept part is the lower-cased form of a piece that `empty()` accepts |
| `PostTypeName.ImplodeSource` | PostType.php:79 | every character of an `implode` result comes from the glue or from one of the parts |
| `PostTypeName.ImplodeWellHyphenated` | PostType.php:79 | joining non-empty, hyphen-free parts with `-` gives a string whose hyphens are interior and never adjacent |
| `PostTypeName.GetPostType` | PostType.php:68-81 | the loop over the split pieces returns exactly the identifier `PostTypeOf` specifies |
| `PostTypeName.PostTypeIsLowerCase` | PostType.php:70-79 | the identifier holds no upper-case ASCII letter and no backslash |
| `PostTypeName.PostTypeIsWellHyphenated` | PostType.php:73-79 | for a class name without hyphens, the identifier neither starts nor ends with `-` and never holds `--` |
| `PostTypeName.KebabFromSplit` | PostType.php:71-79 | the kebab case of a string is its first piece lower-cased, followed by each kept later piece after a hyphen |
| `PostTypeName.KebabOfSplit` | PostType.php:71-79 | joining the kept pieces is the kebab case of the string, for a string that does not start with `0` |
| `PostTypeName.PostTypeIsKebabCase` | PostType.php:68-81 | for every PHP class name, the identifier is the kebab case of the backslash-free name: a hyphen before each upper-case letter except at the start, and everything lower-cased |
| `PostTypeName.RemoveHyphensKebab` | PostType.php:77-79 | deleting the hyphens from the kebab case of a hyphen-free string gives the string lower-cased |
| `PostTypeName.PostTypeSpellsClassName` | PostType.php:70-79 | deleting the hyphens from the identifier gives the lower-cased, backslash-free class name |
| `WordPress.ActionRegistry.AddAction` | PostType.php:112 | `add_action` appends exactly one hook registration and keeps the earlier ones |
| `PostTypes.MissingPropertyMessage` | PostType.php:57-59 | the `__get` exception message names both the attribute and the called class |
| `PostTypes.MissingPostMessage` | PostType.php:93 | the `init` exception message names both the identifier and the escaped post ID |
| `PostTypes.NormalizedArgs` | PostType.php:131-134 | the query always sets `post_type` to the identifier; `orderby` keeps the caller's value when `isset` accepts it and is `menu_order` otherwise; every other key is unchanged; no other key is added |
| `PostTypes.PostType.constructor` | PostType.php:8 | a new object starts with both `$ID` and `$args` unset |
| `PostTypes.PostType.SetPostTypeArgs` | PostType.php:164 | the subclass's `setPostTypeArgs` installs its registration arguments and leaves `ID` alone |
| `PostTypes.PostType.SetupPostType` | PostType.php:110-113 | exactly one `init` hook for this object's `registerPostType` is appended |
| `PostTypes.PostType.Init` | PostType.php:86-95 | `init` throws exactly when `ID` is truthy and the host's type for that post differs from the identifier; the exception carries the "does not exist" message |
| `PostTypes.PostType.Create` | PostType.php:16-30 | for an unregistered type: the object stays unbound, gets the subclass's arguments, and exactly one hook is added. For a registered type: no hook is added, the object is bound to the explicit ID when that is truthy and to the global post's ID otherwise, and construction throws exactly when `init` rejects that ID |
| `PostTypes.PostType.GetProperty` | PostType.php:38-61 | lookups run in the fixed order ACF, post meta, native field. ACF runs only when `get_field` exists, post meta only when the ACF result is empty, and the native field only when both are empty. The result is a value only through the native field, and only when `isset` accepts it; every other case throws the message naming the attribute and the class |
| `PostTypes.PostType.GetAsDocumented` | PostType.php:36-55 | the corrected lookup, in the order of the `empty($r)` tests: a non-empty ACF value wins, then a non-empty meta value; when both are empty, the result is the native field exactly when `isset` accepts it; otherwise it throws the same message |
| `PostTypes.AcfValueIsDiscarded` | PostType.php:43-60 | for a post whose ACF field holds "Lead story", `__get` as written throws while the described lookup returns the value |
| `PostTypes.PostType.Get` | PostType.php:129-142 | `get` queries the host with the normalised arguments and returns the wrapped posts, with the outcome `Wrap` states |
| `PostTypes.PostType.Wrap` | PostType.php:136-141 | success gives one fresh, distinct object per post, in the host's order, each as the constructor leaves it for that post's ID. The query throws exactly when the type is registered and `init` rejects some post, and the exception is that of the first rejected post. One hook is added per object when the type is unregistered; none otherwise |

## Left out

- Host functions (`post_type_exists`, `get_post_type`, `get_field`, `get_post_meta`, `get_post`, `get_posts`, `esc_attr`) are oracles in the `Host` record. Their behaviour inside WordPress and ACF is not part of this model.
- `function_exists('get_field')` is a boolean of the host: whether ACF is installed.
- The deferred hook dispatch (`registerPostType` and `register_post_type`, PostType.php:118-122) is left out. The model records only that the hook was added.
- `getImage` and `permalink` (PostType.php:147-162) are left out. They pass straight through to the host, apart from the `''` fallback.
- `getPostObject` (PostType.php:101-105) is not modelled as a member. `GetProperty` calls `host.getPost` directly.
- The global `$post` becomes the `currentPostId` input of `Create` and `Get`: the `ID` of the current post. A null global `$post` (PostType.php:27, where PHP warns and stores null) is `currentPostId == Null`.
- The default arguments `$id = 0` (PostType.php:16) and `$args = array()` (PostType.php:129) are not modelled; callers pass `Int(0)` and `map[]` explicitly.
- Exceptions are modelled as the `Err` case of a `Result`. Once a construction fails, `Get` returns the first failure instead of unwinding.
- `WP_Post`'s magic `__isset` for computed properties is reduced to the map of properties `host.getPost` returns.
- Floats are not modelled, so `empty(0.0)` and the truthiness of `0.0` are lost.
- Array key order in the `get_posts` arguments is left out. The model uses maps, which have no order.
- PCRE, locale-dependent and Unicode case mapping are left out. The split and `strtolower` act on ASCII `A`-`Z` only.
- PHP's magic dispatch of `__get` (called only for inaccessible properties) and late static binding are left out. `Subclass.name` stands for `get_called_class()`.
- The `__get` message has no space between its two sentences ("...in Foo.Property must be..."). The model keeps this as written.

## Findings

| source | as written | input that shows it | evidently intended | confidence | as-written member | corrected member |
|---|---|---|---|---|---|---|
| PostType.php:42-60 | `$r` holds the ACF or post-meta value but is never returned, so a non-empty value falls through to the exception | a post whose ACF field `headline` is "Lead story", with empty meta and no native `headline`: `__get` throws (`PostTypes.AcfValueIsDiscarded`) | return the first non-empty of the ACF and post-meta values, then the native field when set: the doc comment at line 36 promises ACF and meta values can be read, and the order follows the `empty($r)` tests at lines 43-51 | not executed | `PostTypes.PostType.GetProperty` | `PostTypes.PostType.GetAsDocumented` |
