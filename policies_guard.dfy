/** `PoliciesGuard`: a route guard that lets a request through when its
    route declares no policy handlers, refuses it when handlers are declared
    but no user is authenticated, and otherwise builds the user's ability,
    stores it on the request, and asks every handler in turn. */
module PoliciesGuard {
  import opened Wrappers
  import opened Session
  import opened CaslAbility

  const NOT_VERIFIED: string := "Kullan\U{0131}c\U{0131} do\U{011F}rulanamad\U{0131}"

  /** A handler is a callback or an object with a `handle` method. */
  datatype PolicyHandler = Callback(f: Ability -> bool) | Handler(handle: Ability -> bool)

  /** `executeHandler`: a function is called, an object asked to `handle`. */
  function ExecuteHandler(handler: PolicyHandler, ability: Ability): bool {
    match handler
    case Callback(f) => f(ability)
    case Handler(handle) => handle(ability)
  }

  /** `handlers.every(...)`, left to right, stopping at the first refusal. */
  function Every(handlers: seq<PolicyHandler>, ability: Ability): bool {
    handlers == [] || (ExecuteHandler(handlers[0], ability) && Every(handlers[1..], ability))
  }

  /** How many handlers `every` runs before it has its answer. */
  function Ran(handlers: seq<PolicyHandler>, ability: Ability): nat {
    if handlers == [] then 0
    else if !ExecuteHandler(handlers[0], ability) then 1
    else 1 + Ran(handlers[1..], ability)
  }

  /** `every` is the conjunction of all handlers' answers; it runs all of
      them when they all agree and otherwise stops right after the first
      refusal, every handler before which agreed. */
  lemma {:induction false} EverySpec(handlers: seq<PolicyHandler>, ability: Ability)
    ensures Every(handlers, ability) <==> forall k :: 0 <= k < |handlers| ==> ExecuteHandler(handlers[k], ability)
    ensures Ran(handlers, ability) <= |handlers|
    ensures Every(handlers, ability) ==> Ran(handlers, ability) == |handlers|
    ensures !Every(handlers, ability) ==>
      && Ran(handlers, ability) >= 1
      && !ExecuteHandler(handlers[Ran(handlers, ability) - 1], ability)
      && forall k :: 0 <= k < Ran(handlers, ability) - 1 ==> ExecuteHandler(handlers[k], ability)
  {
    if handlers != [] {
      EverySpec(handlers[1..], ability);
      if ExecuteHandler(handlers[0], ability) {
        forall k | 1 <= k < |handlers| ensures handlers[k] == handlers[1..][k - 1] {
        }
      }
    }
  }

  /** The guard's decision for the route's handlers and the request's
      user: `Success(b)` is `return b`, `Failure` a thrown Unauthorized. */
  function Decide(handlers: Option<seq<PolicyHandler>>, user: Option<AuthenticatedUser>): Result<bool, AuthError> {
    if handlers.None? || handlers.value == [] then Success(true)
    else if user.None? then Failure(Unauthorized(NOT_VERIFIED))
    else Success(Every(handlers.value, Ability(RulesFor(user.value.permissions))))
  }

  /** No handlers lets anyone through, user or not; handlers without a user
      are refused; otherwise the request passes exactly when every handler
      agrees on the user's ability. */
  lemma DecideSpec(handlers: Option<seq<PolicyHandler>>, user: Option<AuthenticatedUser>)
    ensures handlers.None? || handlers == Some([]) ==> Decide(handlers, user) == Success(true)
    ensures handlers.Some? && handlers.value != [] && user.None? ==>
      Decide(handlers, user) == Failure(Unauthorized(NOT_VERIFIED))
    ensures handlers.Some? && handlers.value != [] && user.Some? ==>
      (Decide(handlers, user) == Success(true) <==>
         forall k :: 0 <= k < |handlers.value| ==>
           ExecuteHandler(handlers.value[k], Ability(RulesFor(user.value.permissions))))
    ensures Decide(handlers, user).Failure? <==> handlers.Some? && handlers.value != [] && user.None?
  {
    if handlers.Some? && user.Some? {
      EverySpec(handlers.value, Ability(RulesFor(user.value.permissions)));
    }
  }

  /** The part of the Express request the guard reads and writes. */
  class RequestWithUser {
    var user: Option<AuthenticatedUser>
    var ability: Option<Ability>

    constructor (user: Option<AuthenticatedUser>)
      ensures this.user == user && ability == None
    {
      this.user := user;
      ability := None;
    }
  }

  class PoliciesGuard {
    const abilityFactory: CaslAbilityFactory

    constructor (abilityFactory: CaslAbilityFactory)
      ensures this.abilityFactory == abilityFactory
    {
      this.abilityFactory := abilityFactory;
    }

    /** `canActivate`, given the handlers the route's metadata declares. The
        ability is stored on the request, before any handler runs, exactly
        when handlers are declared and a user is present; it is the one the
        handlers are asked about. */
    method CanActivate(handlers: Option<seq<PolicyHandler>>, request: RequestWithUser) returns (r: Result<bool, AuthError>)
      modifies request
      ensures r == Decide(handlers, old(request.user))
      ensures request.user == old(request.user)
      ensures (handlers.None? || handlers == Some([]) || request.user.None?) ==> request.ability == old(request.ability)
      ensures handlers.Some? && handlers.value != [] && request.user.Some? ==>
        request.ability == Some(Ability(RulesFor(request.user.value.permissions)))
    {
      if handlers.None? || |handlers.value| == 0 {
        return Success(true);
      }
      var user := request.user;
      if user.None? {
        return Failure(Unauthorized(NOT_VERIFIED));
      }
      var ability := abilityFactory.CreateForUser(user.value);
      request.ability := Some(ability);
      return Success(Every(handlers.value, ability));
    }
  }
}
