/**
 * The host CMS as the adapter sees it. Every WordPress and ACF function the
 * adapter calls is an oracle here: a field of `Host` that answers the call and
 * has no other effect. The one host call whose effect the adapter relies on,
 * `add_action`, appends to an `ActionRegistry`.
 */
module WordPress {
  import opened Php

  /** A `WP_Query` / `get_posts` argument array. */
  type Args = map<string, Value>

  datatype Host = Host(
    /** `post_type_exists($post_type)` */
    postTypeExists: string -> bool,
    /** `get_post_type($post)`: the type's name as a string, or `false` */
    postTypeOf: Value -> Value,
    /** `function_exists('get_field')`: whether ACF is installed */
    hasGetField: bool,
    /** ACF's `get_field($selector, $post_id)` */
    getField: (string, Value) -> Value,
    /** `get_post_meta($post_id, $key, true)` */
    getPostMeta: (Value, string) -> Value,
    /** `get_post($post)`: the `WP_Post`'s properties, or `null` */
    getPost: Value -> Option<Fields>,
    /** `get_posts($args)`: the `ID` of each post returned, in the order returned */
    getPosts: Args -> seq<Value>,
    /** `esc_attr($text)` */
    escAttr: Value -> string
  )

  /** One `add_action($hook, $callback)` registration; the callback is `array($target, $method)`. */
  datatype Action = Action(hook: string, target: object, callback: string)

  /** The host's table of action callbacks, in the order they were added. */
  class ActionRegistry {
    var actions: seq<Action>

    constructor ()
      ensures actions == []
    {
      actions := [];
    }

    /** `add_action($hook, array($target, $callback))` */
    method AddAction(hook: string, target: object, callback: string)
      modifies this
      ensures actions == old(actions) + [Action(hook, target, callback)]
    {
      actions := actions + [Action(hook, target, callback)];
    }
  }
}
