/** Property lookup on a plain JavaScript object (`{}`): besides its own
    keys, every such object answers the names it inherits from
    `Object.prototype`, and all of those are truthy (functions, or the
    prototype object itself for `__proto__`). */
module JsObject {

  /** The properties of `Object.prototype` in the V8 engine. */
  const PrototypeMembers: set<string> := {
    "constructor", "__defineGetter__", "__defineSetter__", "hasOwnProperty",
    "__lookupGetter__", "__lookupSetter__", "isPrototypeOf",
    "propertyIsEnumerable", "toString", "valueOf", "__proto__", "toLocaleString"
  }

  /** `obj[key]` is truthy on an object that does not own `key`. */
  predicate IsInherited(key: string) {
    key in PrototypeMembers
  }
}
