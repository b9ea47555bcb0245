/**
 * The `v-permission` directive: an element is displayed only when the
 * signed-in user holds the permission (or permissions) bound to it.
 */
module PermissionDirective {
  import opened Wrappers
  import opened RouteTypes

  /** The bound value. Arrays and other objects carry an identity, which is
      what `===` compares for them. */
  datatype PermValue =
    | Undefined
    | Null
    | Single(permission: string)
    | Many(id: nat, permissions: seq<string>)
    | OtherObject(id: nat)

  /** `!value`: the falsy bound values. */
  predicate Falsy(value: PermValue) {
    value.Undefined? || value.Null? || value == Single("")
  }

  /** `binding.value === binding.oldValue`. */
  predicate StrictEquals(a: PermValue, b: PermValue) {
    match (a, b)
    case (Undefined, Undefined) => true
    case (Null, Null) => true
    case (Single(x), Single(y)) => x == y
    case (Many(i, _), Many(j, _)) => i == j
    case (OtherObject(i), OtherObject(j)) => i == j
    case _ => false
  }

  /** The permission decision of `checkPermission`; `anyOf` is the `or` modifier. */
  function HasPermission(value: PermValue, userInfo: Option<UserInfo>, anyOf: bool): bool {
    if Falsy(value) || userInfo.None? || userInfo.value.permissions.None? then false
    else
      var held := userInfo.value.permissions.value;
      match value
      case Single(p) => p in held
      case Many(_, ps) =>
        if anyOf then exists i | 0 <= i < |ps| :: ps[i] in held
        else forall i | 0 <= i < |ps| :: ps[i] in held
      case _ => false
  }

  /** The `display` style written for a decision. */
  function Display(permitted: bool): (display: string)
    ensures display == "" <==> permitted
  {
    if permitted then "" else "none"
  }

  /** Nothing is displayed without a value, a user, or a permission list. */
  lemma HiddenWithoutData(value: PermValue, userInfo: Option<UserInfo>, anyOf: bool)
    requires Falsy(value) || userInfo.None? || userInfo.value.permissions.None?
    ensures !HasPermission(value, userInfo, anyOf)
  {
  }

  /** A single permission is granted exactly when it is held verbatim: holding `*` grants only `*`. */
  lemma SingleExact(p: string, user: UserInfo, held: seq<string>, anyOf: bool)
    requires p != "" && user.permissions == Some(held)
    ensures HasPermission(Single(p), Some(user), anyOf) <==> p in held
    ensures held == ["*"] ==> (HasPermission(Single(p), Some(user), anyOf) <==> p == "*")
  {
  }

  /** With `or`, some listed permission must be held, so an empty list is hidden; without it,
      every one must be, so an empty list is shown. */
  lemma ListRules(id: nat, ps: seq<string>, user: UserInfo, held: seq<string>)
    requires user.permissions == Some(held)
    ensures HasPermission(Many(id, ps), Some(user), true) <==> exists p :: p in ps && p in held
    ensures HasPermission(Many(id, ps), Some(user), false) <==> forall p :: p in ps ==> p in held
    ensures ps == [] ==> !HasPermission(Many(id, ps), Some(user), true)
    ensures ps == [] ==> HasPermission(Many(id, ps), Some(user), false)
  {
    if exists p :: p in ps && p in held {
      var p :| p in ps && p in held;
      var i :| 0 <= i < |ps| && ps[i] == p;
    }
  }

  /** Holding more permissions never hides an element that was shown. */
  lemma Monotone(value: PermValue, user: UserInfo, held: seq<string>, more: seq<string>, anyOf: bool)
    requires user.permissions == Some(held)
    requires forall p :: p in held ==> p in more
    requires HasPermission(value, Some(user), anyOf)
    ensures HasPermission(value, Some(user.(permissions := Some(more))), anyOf)
  {
    if value.Many? && anyOf {
      var i :| 0 <= i < |value.permissions| && value.permissions[i] in held;
    }
  }

  /** For a non-empty list, requiring all permissions is stricter than requiring one. */
  lemma AllImpliesAny(id: nat, ps: seq<string>, userInfo: Option<UserInfo>)
    requires ps != []
    requires HasPermission(Many(id, ps), userInfo, false)
    ensures HasPermission(Many(id, ps), userInfo, true)
  {
    assert ps[0] in userInfo.value.permissions.value;
  }

  /** The element's style, reduced to `display`. */
  class Element {
    var display: string

    constructor (display: string)
      ensures this.display == display
    {
      this.display := display;
    }
  }

  method CheckPermission(el: Element, value: PermValue, userInfo: Option<UserInfo>, anyOf: bool)
    modifies el
    ensures el.display == Display(HasPermission(value, userInfo, anyOf))
  {
    if Falsy(value) || userInfo.None? || userInfo.value.permissions.None? {
      el.display := "none";
      return;
    }
    var permitted := false;
    var held := userInfo.value.permissions.value;
    match value {
      case Single(p) =>
        permitted := p in held;
      case Many(_, ps) =>
        if anyOf {
          permitted := exists i | 0 <= i < |ps| :: ps[i] in held;
        } else {
          permitted := forall i | 0 <= i < |ps| :: ps[i] in held;
        }
      case _ =>
    }
    el.display := if permitted then "" else "none";
  }

  /** `mounted`: always checks. */
  method Mounted(el: Element, value: PermValue, userInfo: Option<UserInfo>, anyOf: bool)
    modifies el
    ensures el.display == Display(HasPermission(value, userInfo, anyOf))
  {
    CheckPermission(el, value, userInfo, anyOf);
  }

  /** `updated`: checks again only when the bound value is not `===` the previous one. */
  method Updated(el: Element, value: PermValue, oldValue: PermValue, userInfo: Option<UserInfo>, anyOf: bool)
    modifies el
    ensures StrictEquals(value, oldValue) ==> el.display == old(el.display)
    ensures !StrictEquals(value, oldValue) ==> el.display == Display(HasPermission(value, userInfo, anyOf))
  {
    if StrictEquals(value, oldValue) {
      return;
    }
    CheckPermission(el, value, userInfo, anyOf);
  }
}
